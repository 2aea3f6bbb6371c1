/** `Session` as the program runs it: the stream table, the write queue with its `is_writing_` flag,
    and the read loop. Proved against `MuxSessionSpec` and `MuxFrame`. */
module MuxSession {
  import opened Bytes
  import opened MuxFrame
  import opened MuxPair
  import Spec = MuxSessionSpec

  class Session {
    var nextStreamId: u32
    var streams: set<u32>
    var stopped: bool
    var writeQueue: seq<Frame>
    var isWriting: bool
    var reader: Reader
    // Effects on the outside: bytes handed to the underlying stream, stream objects created, and
    // tasks posted to the strands of streams.
    var written: bytes
    var created: set<u32>
    var posts: map<u32, seq<Task>>

    ghost function State(): Spec.Session
      reads this
    {
      Spec.Session(nextStreamId, streams, stopped)
    }

    /** A write is under way exactly when the queue is not empty; its head is the one being written. */
    ghost predicate Valid()
      reads this
    {
      isWriting <==> writeQueue != []
    }

    /** Every frame ever enqueued, as bytes: those handed down and those still waiting. The head of the
        queue has already been handed down. */
    ghost function Enqueued(): bytes
      reads this
      requires Valid()
    {
      if writeQueue == [] then written else written + Wires(writeQueue[1..])
    }

    constructor (isServer: bool)
      ensures Valid() && State() == Spec.NewSession(isServer)
      ensures Enqueued() == [] && created == {} && posts == map[] && reader == AwaitHeader
    {
      nextStreamId := if isServer then 2 else 1;
      streams, stopped, writeQueue, isWriting, reader := {}, false, [], false, AwaitHeader;
      written, created, posts := [], {}, map[];
    }

    /** Hands the head of the queue to the underlying stream. */
    method DoWrite()
      requires isWriting
      modifies `isWriting, `written
      ensures Valid()
      ensures written == if writeQueue == [] then old(written) else old(written) + Wire(writeQueue[0])
    {
      if writeQueue == [] {
        isWriting := false;
        return;
      }
      written := written + Wire(writeQueue[0]);
    }

    method AsyncSendFrame(f: Frame)
      requires Valid()
      modifies `writeQueue, `isWriting, `written
      ensures Valid() && writeQueue == old(writeQueue) + [f]
      ensures Enqueued() == old(Enqueued()) + Wire(f)
    {
      ghost var before := Enqueued();
      writeQueue := writeQueue + [f];
      if !isWriting {
        isWriting := true;
        DoWrite();
        assert writeQueue[1..] == [];
      } else {
        assert writeQueue[1..] == old(writeQueue)[1..] + [f];
        WiresAppend(old(writeQueue)[1..], [f]);
        assert Wires([f]) == Wire(f) + Wires([]);
        Assoc(written, Wires(old(writeQueue)[1..]), Wire(f));
      }
    }

    /** The underlying stream has written the head of the queue: the next frame follows at once. */
    method WriteCompleted()
      requires Valid() && isWriting
      modifies `writeQueue, `isWriting, `written
      ensures Valid() && writeQueue == old(writeQueue)[1..]
      ensures Enqueued() == old(Enqueued())
    {
      ghost var rest := writeQueue[1..];
      writeQueue := writeQueue[1..];
      DoWrite();
      if rest != [] {
        Assoc(old(written), Wire(rest[0]), Wires(rest[1..]));
      }
    }

    method OpenStream() returns (id: u32)
      requires Valid()
      modifies `nextStreamId, `streams, `created, `writeQueue, `isWriting, `written
      ensures var o := Spec.OpenStream(old(State()));
              && Valid() && State() == o.st && id == old(nextStreamId)
              && writeQueue == old(writeQueue) + o.out && created == old(created) + o.created
              && Enqueued() == old(Enqueued()) + Wires(o.out)
    {
      id := nextStreamId;
      nextStreamId := Truncate32(nextStreamId + 2);
      streams := streams + {id};
      created := created + {id};
      AsyncSendFrame(Syn(id));
      assert Wires([Syn(id)]) == Wire(Syn(id)) + Wires([]);
    }

    method RemoveStream(id: u32)
      modifies `streams
      ensures State() == Spec.RemoveStream(old(State()), id)
    {
      streams := streams - {id};
    }

    /** Posts one more task to the strand of stream `id`. */
    method PostTask(id: u32, t: Task)
      modifies `posts
      ensures posts == old(posts)[id := (if id in old(posts) then old(posts)[id] else []) + [t]]
    {
      posts := posts[id := (if id in posts then posts[id] else []) + [t]];
    }

    /** Takes all streams off the table and posts a close to each, in whatever order the table is walked. */
    method StopSession()
      requires posts == map[]
      modifies `streams, `stopped, `posts
      ensures var o := Spec.Stop(old(State())); State() == o.st && posts == o.posts
    {
      if stopped {
        return;
      }
      stopped := true;
      var toClose := streams;
      streams := {};
      while toClose != {}
        invariant toClose <= old(streams) && streams == {} && stopped
        invariant posts.Keys == old(streams) - toClose
        invariant forall id :: id in posts ==> posts[id] == [CloseTask]
        decreases toClose
      {
        var id :| id in toClose;
        PostTask(id, CloseTask);
        toClose := toClose - {id};
      }
    }

    /** Data and FIN go to the strand of stream `id`, in this order. */
    method PostFrame(id: u32, f: Frame)
      requires posts == map[]
      modifies `posts
      ensures posts == map[id := Spec.FrameTasks(f)]
    {
      posts := map[id := []];
      if f.body != [] {
        PostTask(id, DataTask(f.body));
      }
      if Has(f.h.flags, FIN) {
        PostTask(id, CloseTask);
      }
      assert posts[id] == Spec.FrameTasks(f);
    }

    /** Dispatches one received frame. `posts` and `created` hold its effects. */
    method HandleFrame(f: Frame)
      requires Valid() && posts == map[] && created == {}
      modifies `streams, `stopped, `posts, `created, `writeQueue, `isWriting, `written
      ensures var o := Spec.HandleFrame(old(State()), f);
              && Valid() && State() == o.st && posts == o.posts && created == o.created
              && writeQueue == old(writeQueue) + o.out
              && Enqueued() == old(Enqueued()) + Wires(o.out)
    {
      var id := f.h.streamId;
      var found := id in streams;
      assert Wires([Ack(id)]) == Wire(Ack(id)) + Wires([]) == Wire(Ack(id));
      assert Wires([Ping(ACK)]) == Wire(Ping(ACK)) + Wires([]) == Wire(Ping(ACK));
      assert Wires([]) == [] && old(writeQueue) + [] == old(writeQueue);
      hide Wires, Wire;
      if f.h.kind == DATA {
        if Has(f.h.flags, SYN) && !found {
          streams := streams + {id};
          created := {id};
          found := true;
          AsyncSendFrame(Ack(id));
        }
        if found {
          PostFrame(id, f);
        }
      } else if f.h.kind == WINDOW_UPDATE {
        if found {
          PostTask(id, UpdateTask(f.h.length));
          assert posts[id] == [UpdateTask(f.h.length)];
        }
      } else if f.h.kind == PING {
        if Has(f.h.flags, SYN) {
          AsyncSendFrame(Ping(ACK));
        }
      } else {
        StopSession();
      }
    }

    /** Completion of the exact read the read loop is waiting for: a header or a body. A stopped session
        reads no further. */
    method ReadCompleted(data: bytes)
      requires Valid() && posts == map[] && created == {} && |data| == Needs(reader)
      modifies this
      ensures Valid()
      ensures match OnRead(old(reader), data)
              case Continue(next) =>
                reader == (if old(stopped) then old(reader) else next) && State() == old(State()) && posts == map[]
              case Deliver(next, f) =>
                if old(stopped) then State() == old(State()) && posts == map[]
                else
                  var o := Spec.HandleFrame(old(State()), f);
                  reader == next && State() == o.st && posts == o.posts && created == o.created
                  && Enqueued() == old(Enqueued()) + Wires(o.out)
              case Halt => State() == Spec.Stop(old(State())).st && posts == Spec.Stop(old(State())).posts
    {
      hide Wires, Decode;
      if stopped {
        return;
      }
      match OnRead(reader, data)
      case Continue(next) =>
        reader := next;
      case Deliver(next, f) =>
        reader := next;
        HandleFrame(f);
      case Halt =>
        StopSession();
    }
  }
}
