/** What a `Session` does to its stream table and what it posts to the strands of its streams
    (src/common/mux.cpp, `open_stream`, `handle_frame`, `remove_stream`, `stop`). */
module MuxSessionSpec {
  import opened Bytes
  import opened MuxFrame
  import opened MuxPair

  datatype Session = Session(next: u32, table: set<u32>, stopped: bool)

  /** New state, frames sent, stream objects created, and tasks posted to each stream's strand. */
  datatype Outcome = Outcome(st: Session, out: seq<Frame>, created: set<u32>, posts: map<u32, seq<Task>>)

  function NewSession(isServer: bool): Session {
    Session(if isServer then 2 else 1, {}, false)
  }

  function OpenStream(st: Session): Outcome {
    Outcome(st.(next := Truncate32(st.next + 2), table := st.table + {st.next}), [Syn(st.next)], {st.next}, map[])
  }

  function RemoveStream(st: Session, id: u32): Session {
    st.(table := st.table - {id})
  }

  function Stop(st: Session): Outcome {
    if st.stopped then Outcome(st, [], {}, map[])
    else Outcome(Session(st.next, {}, true), [], {}, map id | id in st.table :: [CloseTask])
  }

  /** Data and FIN of one frame, as tasks. */
  function FrameTasks(f: Frame): seq<Task> {
    (if f.body != [] then [DataTask(f.body)] else []) + (if Has(f.h.flags, FIN) then [CloseTask] else [])
  }

  function HandleFrame(st: Session, f: Frame): Outcome {
    var id := f.h.streamId;
    if f.h.kind == DATA then
      var creates := Has(f.h.flags, SYN) && id !in st.table;
      var st' := if creates then st.(table := st.table + {id}) else st;
      Outcome(st',
              if creates then [Ack(id)] else [],
              if creates then {id} else {},
              if id in st'.table then map[id := FrameTasks(f)] else map[])
    else if f.h.kind == WINDOW_UPDATE then
      Outcome(st, [], {}, if id in st.table then map[id := [UpdateTask(f.h.length)]] else map[])
    else if f.h.kind == PING then
      Outcome(st, if Has(f.h.flags, SYN) then [Ping(ACK)] else [], {}, map[])
    else
      Stop(st)
  }
}
