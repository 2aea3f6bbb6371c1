/** `BufferedStream` (src/common/stream.h): bytes that were read too early are replayed before the
    underlying stream is read on. */
module BufferedStream {
  import opened Bytes
  import Spec = BufferedStreamSpec

  class BufferedStream {
    var buffer: bytes
    var bufferOffset: nat
    var underlying: bytes     // what the underlying stream still holds

    ghost predicate Valid()
      reads this
    {
      bufferOffset <= |buffer|
    }

    ghost function State(): Spec.Source
      reads this
      requires Valid()
    {
      Spec.Source(buffer[bufferOffset..], underlying)
    }

    constructor (underlying: bytes, initialData: bytes)
      ensures Valid() && State() == Spec.Source(initialData, underlying)
    {
      this.underlying, buffer, bufferOffset := underlying, initialData, 0;
    }

    /** Takes up to `size` bytes of the replayed data, and forgets the buffer once it is used up. */
    method TakeBuffered(size: nat) returns (data: bytes)
      requires Valid() && bufferOffset < |buffer|
      modifies `buffer, `bufferOffset
      ensures Valid()
      ensures var was := old(State());
              var n := Min(|was.replay|, size);
              data == was.replay[..n] && State() == Spec.After(was, n)
    {
      var toCopy := Min(|buffer| - bufferOffset, size);
      data := buffer[bufferOffset..bufferOffset + toCopy];
      assert buffer[bufferOffset..][..toCopy] == data;
      assert buffer[bufferOffset..][toCopy..] == buffer[bufferOffset + toCopy..];
      bufferOffset := bufferOffset + toCopy;
      if bufferOffset == |buffer| {
        buffer := [];
        bufferOffset := 0;
      }
    }

    /** `async_read_some`: replayed bytes alone, or else what the underlying stream gives, `arrived` bytes
        at most. */
    method AsyncReadSome(size: nat, arrived: nat) returns (data: bytes)
      requires Valid()
      modifies this
      ensures Valid() && |data| <= size && |data| <= |Spec.Content(old(State()))|
      ensures data == Spec.Content(old(State()))[..|data|] && State() == Spec.After(old(State()), |data|)
      ensures size > 0 && arrived > 0 && Spec.Content(old(State())) != [] ==> data != []
      ensures size > 0 && old(State()).replay != [] ==> |data| == Min(|old(State()).replay|, size)
    {
      if bufferOffset < |buffer| {
        data := TakeBuffered(size);
        return;
      }
      var n := Min(Min(size, arrived), |underlying|);
      data := underlying[..n];
      underlying := underlying[n..];
      assert buffer[bufferOffset..] == [];
    }

    /** `async_read`: exactly `size` bytes, replayed ones first. While the underlying stream has too few it waits, with
        the replayed part already in the caller's buffer. */
    method AsyncRead(size: nat) returns (done: bool, data: bytes)
      requires Valid()
      modifies this
      ensures Valid() && done == (size <= |Spec.Content(old(State()))|)
      ensures done ==> data == Spec.Content(old(State()))[..size] && State() == Spec.After(old(State()), size)
      ensures !done ==> data == old(State()).replay && State() == Spec.Source([], old(State()).underlying)
    {
      data := [];
      ghost var was := State();
      if bufferOffset < |buffer| {
        data := TakeBuffered(size);
        if |data| == size {
          return true, data;
        }
      }
      assert data == was.replay && State() == Spec.Source([], was.underlying);
      var next := size - |data|;
      if next > |underlying| {
        return false, data;
      }
      data := data + underlying[..next];
      underlying := underlying[next..];
      done := true;
    }
  }
}
