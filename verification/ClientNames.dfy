/** Client names on the server: `AllocateClientName` and `ReleaseClientName` of src/server/server.cpp. */
module ClientNames {

  // ---------- decimal suffixes ----------

  function Digit(d: nat): char
    requires d < 10
  {
    "0123456789"[d]
  }

  /** `std::to_string` of a natural number. */
  function Decimal(n: nat): (s: string)
    ensures s != []
  {
    if n < 10 then [Digit(n)] else Decimal(n / 10) + [Digit(n % 10)]
  }

  lemma {:induction false} DecimalInjective(a: nat, b: nat)
    requires Decimal(a) == Decimal(b)
    ensures a == b
    decreases a
  {
    var s, t := Decimal(a), Decimal(b);
    assert s[|s| - 1] == Digit(a % 10) && t[|t| - 1] == Digit(b % 10);
    if a >= 10 && b >= 10 {
      assert s[..|s| - 1] == Decimal(a / 10) && t[..|t| - 1] == Decimal(b / 10);
      DecimalInjective(a / 10, b / 10);
    }
  }

  /** What a reader of decimal numbers makes of a string. */
  function Value(s: string): int {
    if s == [] then 0 else 10 * Value(s[..|s| - 1]) + (s[|s| - 1] as int - '0' as int)
  }

  /** The decimal form consists of digits, has no leading zero, and has the number as its value. */
  lemma {:induction false} DecimalReads(n: nat)
    ensures var s := Decimal(n);
            && Value(s) == n
            && (forall i :: 0 <= i < |s| ==> '0' <= s[i] <= '9')
            && (s[0] == '0' <==> n == 0)
  {
    var s := Decimal(n);
    assert (if n < 10 then Digit(n) else Digit(n % 10)) == s[|s| - 1];
    if n >= 10 {
      DecimalReads(n / 10);
      assert s[..|s| - 1] == Decimal(n / 10);
    } else {
      assert s[..0] == [];
    }
  }

  // ---------- candidates ----------

  function BaseOf(requested: string): string {
    if requested == "" then "client" else requested
  }

  /** base, base_1, base_2, ... */
  function Candidate(base: string, k: nat): string {
    if k == 0 then base else base + "_" + Decimal(k)
  }

  /** The names tried for a client that asks for none: client, client_1, and so on. */
  lemma FirstNames()
    ensures Candidate(BaseOf(""), 0) == "client" && Candidate(BaseOf(""), 1) == "client_1"
    ensures Candidate(BaseOf("node"), 0) == "node" && Candidate(BaseOf("node"), 10) == "node_10"
  {
    assert Decimal(10) == Decimal(1) + "0";
  }

  lemma CandidateInjective(base: string, j: nat, k: nat)
    requires Candidate(base, j) == Candidate(base, k)
    ensures j == k
  {
    hide Decimal;
    if j != 0 && k != 0 {
      assert Candidate(base, j)[|base| + 1..] == Decimal(j);
      assert Candidate(base, k)[|base| + 1..] == Decimal(k);
      DecimalInjective(j, k);
    } else if j != k {
      assert false;
    }
  }

  /** The first `k` candidates. */
  function FirstCandidates(base: string, k: nat): set<string> {
    set j | 0 <= j < k :: Candidate(base, j)
  }

  lemma {:induction false} CandidatesCount(base: string, k: nat)
    ensures |FirstCandidates(base, k)| == k
  {
    hide Candidate;
    if k > 0 {
      CandidatesCount(base, k - 1);
      forall j | 0 <= j < k - 1 ensures Candidate(base, j) != Candidate(base, k - 1) {
        if Candidate(base, j) == Candidate(base, k - 1) {
          CandidateInjective(base, j, k - 1);
        }
      }
      assert FirstCandidates(base, k) == FirstCandidates(base, k - 1) + {Candidate(base, k - 1)};
    } else {
      assert FirstCandidates(base, k) == {};
    }
  }

  /** When the first `k` candidates are all taken, at least `k` names are. */
  lemma TakenCount(active: set<string>, base: string, k: nat)
    requires forall j :: 0 <= j < k ==> Candidate(base, j) in active
    ensures k <= |active|
  {
    hide Candidate;
    CandidatesCount(base, k);
    assert FirstCandidates(base, k) <= active;
    assert active == FirstCandidates(base, k) + (active - FirstCandidates(base, k));
  }

  /** The first candidate that is free, after at most |active| + 1 probes. */
  ghost predicate IsFirstFree(active: set<string>, base: string, k: nat) {
    && k <= |active|
    && Candidate(base, k) !in active
    && forall j :: 0 <= j < k ==> Candidate(base, j) in active
  }

  /** There is exactly one first free candidate. */
  lemma {:induction false} FirstFreeExists(active: set<string>, base: string, from: nat) returns (k: nat)
    requires forall j :: 0 <= j < from ==> Candidate(base, j) in active
    ensures IsFirstFree(active, base, k) && forall j :: IsFirstFree(active, base, j) ==> j == k
    decreases |active| + 1 - from
  {
    hide Candidate;
    TakenCount(active, base, from);
    if Candidate(base, from) in active {
      TakenCount(active, base, from + 1);
      k := FirstFreeExists(active, base, from + 1);
    } else {
      k := from;
    }
  }

  // ---------- the tables ----------

  /** `active_client_names_` and `sessions_`. Both methods hold `client_name_mutex_`. */
  class NameTable<Session> {
    var activeClientNames: set<string>
    var sessions: map<string, Session>

    ghost predicate Valid()
      reads this
    {
      activeClientNames == sessions.Keys
    }

    constructor ()
      ensures Valid() && sessions == map[]
    {
      activeClientNames, sessions := {}, map[];
    }

    method AllocateClientName(requestedName: string, session: Session) returns (finalName: string)
      requires Valid()
      modifies this
      ensures Valid()
      ensures exists k :: IsFirstFree(old(activeClientNames), BaseOf(requestedName), k) &&
                          finalName == Candidate(BaseOf(requestedName), k)
      ensures finalName !in old(sessions) && sessions == old(sessions)[finalName := session]
    {
      var name := requestedName;
      if name == "" {
        name := "client";
      }
      finalName := name;
      var suffix := 1;
      while finalName in activeClientNames
        invariant unchanged(this)
        invariant suffix >= 1 && finalName == Candidate(name, suffix - 1)
        invariant forall j :: 0 <= j < suffix - 1 ==> Candidate(name, j) in activeClientNames
        invariant suffix - 1 <= |activeClientNames|
        decreases |activeClientNames| + 1 - suffix
      {
        TakenCount(activeClientNames, name, suffix);
        finalName := name + "_" + Decimal(suffix);
        suffix := suffix + 1;
      }
      ghost var k: nat := suffix - 1;
      assert IsFirstFree(old(activeClientNames), BaseOf(requestedName), k) && finalName == Candidate(BaseOf(requestedName), k);
      activeClientNames := activeClientNames + {finalName};
      sessions := sessions[finalName := session];
    }

    method ReleaseClientName(name: string)
      requires Valid()
      modifies this
      ensures Valid() && sessions == old(sessions) - {name}
    {
      activeClientNames := activeClientNames - {name};
      sessions := sessions - {name};
    }
  }

  // ---------- runs ----------

  datatype Event = Allocate(requested: string) | Release(name: string)

  /** The names in use after an event; a released name may be any. */
  ghost predicate Step(active: set<string>, e: Event, active': set<string>) {
    match e
    case Allocate(requested) =>
      exists k :: IsFirstFree(active, BaseOf(requested), k) && active' == active + {Candidate(BaseOf(requested), k)}
    case Release(name) => active' == active - {name}
  }

  function Balance(events: seq<Event>): int {
    if events == [] then 0
    else Balance(events[..|events| - 1]) + if events[|events| - 1].Allocate? then 1 else -1
  }

  ghost predicate IsRun(states: seq<set<string>>, events: seq<Event>) {
    && |states| == |events| + 1
    && forall i :: 0 <= i < |events| ==> Step(states[i], events[i], states[i + 1])
  }

  /** Releases are of names in use. */
  ghost predicate Disciplined(states: seq<set<string>>, events: seq<Event>)
    requires |states| == |events| + 1
  {
    forall i :: 0 <= i < |events| && events[i].Release? ==> events[i].name in states[i]
  }

  /** Every allocation hands out a name of its own: there are as many names in use as sessions, after every run. */
  lemma {:induction false} OneNameEach(states: seq<set<string>>, events: seq<Event>)
    requires IsRun(states, events) && Disciplined(states, events) && states[0] == {}
    ensures |states[|events|]| == Balance(events)
    decreases |events|
  {
    hide Step, IsFirstFree;
    if events != [] {
      var n := |events| - 1;
      OneNameEach(states[..n + 1], events[..n]);
      assert Step(states[n], events[n], states[n + 1]);
      StepCount(states[n], events[n], states[n + 1]);
    }
  }

  lemma StepCount(active: set<string>, e: Event, active': set<string>)
    requires Step(active, e, active') && (e.Release? ==> e.name in active)
    ensures |active'| == |active| + if e.Allocate? then 1 else -1
  {
  }
}
