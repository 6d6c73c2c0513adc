/** The parser sees the stream in chunks and starts over with the dictionary at every chunk. */
module RespChunks {
  import opened Bits
  import opened Resp
  import opened RespStable

  /** Where the parser stands between chunks: what it consumed, and the dictionary. */
  datatype State = State(cons: nat, dict: Dict)

  /** What a run of `worker` did: the samples it wrote, where it stands, and whether it threw. */
  datatype Outcome = Outcome(samples: seq<Sample>, state: State, failed: bool)

  datatype DictEnd = Stop | More | Fail

  /** `parse_dict`: arrays are dictionaries until something else comes. */
  function Dicts(s: Server, b: Bytes, c: nat, dict: Dict): (r: (DictEnd, State))
    requires c <= |b|
    ensures c <= r.1.cons <= |b|
    ensures r.0 == Stop ==> r.1.cons < |b| && NextType(b, r.1.cons) != ARRAY
    decreases |b| - c
  {
    match NextType(b, c)
    case AGAIN => (More, State(c, dict))
    case ARRAY =>
      (match Dictionary(s, b, c, dict)
       case (d, Done(_, next)) => Dicts(s, b, next, d)
       case (d, Again) => (More, State(c, d))
       case (d, Bad) => (Fail, State(c, d)))
    case _ => (Stop, State(c, dict))
  }

  /** The messages behind the dictionaries. */
  function Pdus(s: Server, b: Bytes, c: nat, dict: Dict): (r: Outcome)
    requires c <= |b|
    ensures c <= r.state.cons <= |b| && r.state.dict == dict
    decreases |b| - c
  {
    match Pdu(s, b, c, dict)
    case Done(samples, next) =>
      var r := Pdus(s, b, next, dict);
      r.(samples := samples + r.samples)
    case Again => Outcome([], State(c, dict), false)
    case Bad => Outcome([], State(c, dict), true)
  }

  /** `worker` over the bytes received so far. */
  function Worker(s: Server, b: Bytes, st: State): (r: Outcome)
    requires st.cons <= |b|
    ensures st.cons <= r.state.cons <= |b|
  {
    var (end, next) := Dicts(s, b, st.cons, st.dict);
    if end == Stop then Pdus(s, b, next.cons, next.dict) else Outcome([], next, end == Fail)
  }

  /** A message starts with an array, which only the beginning of a chunk would take for a dictionary. */
  predicate Late(s: Server, b: Bytes, c: nat, dict: Dict)
    requires c <= |b|
    decreases |b| - c
  {
    NextType(b, c) == ARRAY || (var r := Pdu(s, b, c, dict); r.Done? && Late(s, b, r.next, dict))
  }

  /** No array follows the first message. */
  predicate NoLateArray(s: Server, b: Bytes, st: State)
    requires st.cons <= |b|
  {
    var (end, next) := Dicts(s, b, st.cons, st.dict);
    end == Stop ==> !Late(s, b, next.cons, next.dict)
  }

  // ----- Two chunks are as good as one

  lemma {:induction false} DictsStable(s: Server, a: Bytes, b: Bytes, c: nat, dict: Dict)
    requires a <= b && c <= |a|
    ensures
      var (end, st) := Dicts(s, a, c, dict);
      if end == More then Dicts(s, b, st.cons, st.dict) == Dicts(s, b, c, dict)
      else Dicts(s, b, c, dict) == (end, st)
    decreases |a| - c
  {
    hide Dictionary, NextType;
    TypeStable(a, b, c);
    DictionaryStable(s, a, b, c, dict);
    var (d, r) := Dictionary(s, a, c, dict);
    if NextType(a, c) == ARRAY && r.Done? {
      DictsStable(s, a, b, r.next, d);
    }
  }

  /** Messages of the first chunk, then those of the rest. */
  lemma {:induction false} PdusStable(s: Server, a: Bytes, b: Bytes, c: nat, dict: Dict)
    requires a <= b && c <= |a|
    ensures
      var r := Pdus(s, a, c, dict);
      if r.failed then Pdus(s, b, c, dict) == r
      else
        var q := Pdus(s, b, r.state.cons, dict);
        Pdus(s, b, c, dict) == q.(samples := r.samples + q.samples)
    ensures !Late(s, b, c, dict) && !Pdus(s, a, c, dict).failed ==> !Late(s, b, Pdus(s, a, c, dict).state.cons, dict)
    decreases |a| - c
  {
    hide Pdu, NextType;
    PduStable(s, a, b, c, dict);
    var p := Pdu(s, a, c, dict);
    if p.Done? {
      PdusStable(s, a, b, p.next, dict);
      var r := Pdus(s, a, p.next, dict);
      if !r.failed {
        var q := Pdus(s, b, r.state.cons, dict);
        assert p.value + (r.samples + q.samples) == p.value + r.samples + q.samples;
      }
    } else if p.Again? {
      var q := Pdus(s, b, c, dict);
      assert [] + q.samples == q.samples;
    }
  }

  /** Reading a first part and then everything is reading everything at once. */
  lemma WorkerTwice(s: Server, a: Bytes, b: Bytes, st: State)
    requires a <= b && st.cons <= |a| && NoLateArray(s, b, st)
    ensures
      var r := Worker(s, a, st);
      if r.failed then Worker(s, b, st) == r
      else
        var q := Worker(s, b, r.state);
        Worker(s, b, st) == q.(samples := r.samples + q.samples)
    ensures !Worker(s, a, st).failed ==> NoLateArray(s, b, Worker(s, a, st).state)
  {
    hide Dicts, Pdus, Late;
    DictsStable(s, a, b, st.cons, st.dict);
    var (end, next) := Dicts(s, a, st.cons, st.dict);
    var r := Worker(s, a, st);
    if end == Stop {
      PdusStable(s, a, b, next.cons, next.dict);
      if !r.failed {
        NotLateStops(s, b, r.state.cons, next.dict);
        AfterEnd(s, b, r.state.cons, next.dict);
      }
    } else if end == More {
      var q := Worker(s, b, r.state);
      assert [] + q.samples == q.samples;
    }
  }

  /** At a message boundary that is not followed by an array, the dictionary phase stops at once. */
  lemma NotLateStops(s: Server, b: Bytes, c: nat, dict: Dict)
    requires c <= |b| && !Late(s, b, c, dict)
    ensures NextType(b, c) != ARRAY
    ensures Dicts(s, b, c, dict) == (if c == |b| then More else Stop, State(c, dict))
  {
    hide Pdu;
  }

  lemma AfterEnd(s: Server, b: Bytes, c: nat, dict: Dict)
    requires c <= |b|
    ensures c == |b| ==> Pdus(s, b, c, dict) == Outcome([], State(c, dict), false)
  {}

  // ----- Any chunks

  /** The bytes received after each chunk: a growing sequence of beginnings of the stream. */
  predicate Growing(b: Bytes, ends: seq<nat>) {
    && (forall i :: 0 <= i < |ends| ==> ends[i] <= |b|)
    && (forall i, j :: 0 <= i < j < |ends| ==> ends[i] <= ends[j])
  }

  /** `worker` after every chunk, until it throws. */
  function Chunked(s: Server, b: Bytes, ends: seq<nat>, st: State): Outcome
    requires Growing(b, ends) && (ends != [] ==> st.cons <= ends[0])
    decreases |ends|
  {
    if ends == [] then Outcome([], st, false)
    else
      var r := Worker(s, b[..ends[0]], st);
      if r.failed then r
      else
        var q := Chunked(s, b, ends[1..], r.state);
        q.(samples := r.samples + q.samples)
  }

  /** A way of cutting the stream, with the last chunk at its end. */
  predicate Cutting(b: Bytes, st: State, ends: seq<nat>) {
    Growing(b, ends) && ends != [] && st.cons <= ends[0] && ends[|ends| - 1] == |b|
  }

  /** The same samples are written, and the same error is met, for every way of cutting the stream into chunks. */
  lemma {:induction false} ChunksDoNotMatter(s: Server, b: Bytes, ends: seq<nat>, st: State)
    requires Cutting(b, st, ends) && NoLateArray(s, b, st)
    ensures Chunked(s, b, ends, st) == Worker(s, b, st)
    decreases |ends|
  {
    hide Worker, NoLateArray;
    var a := b[..ends[0]];
    var r := Worker(s, a, st);
    WorkerTwice(s, a, b, st);
    if |ends| == 1 {
      assert a == b;
      var q := Chunked(s, b, ends[1..], r.state);
      assert r.samples + [] == r.samples;
    } else if !r.failed {
      assert ends[1..][|ends| - 2] == ends[|ends| - 1];
      ChunksDoNotMatter(s, b, ends[1..], r.state);
    }
  }

  // ----- Late arrays

  /** Where the first array at a message boundary is. */
  function LateAt(s: Server, b: Bytes, c: nat, dict: Dict): (n: nat)
    requires c <= |b| && Late(s, b, c, dict)
    ensures c <= n < |b| && NextType(b, n) == ARRAY
    decreases |b| - c
  {
    if NextType(b, c) == ARRAY then c else LateAt(s, b, Pdu(s, b, c, dict).next, dict)
  }

  /** In one piece the parser throws at the array; cut before it, all messages up to there are written and it waits. */
  lemma {:induction false} PdusBeforeLate(s: Server, b: Bytes, c: nat, dict: Dict)
    requires c <= |b| && Late(s, b, c, dict)
    ensures
      var n := LateAt(s, b, c, dict);
      && Pdus(s, b, c, dict).failed
      && Pdus(s, b[..n], c, dict) == Outcome(Pdus(s, b, c, dict).samples, State(n, dict), false)
    decreases |b| - c
  {
    hide Pdu;
    var n := LateAt(s, b, c, dict);
    if NextType(b, c) == ARRAY {
      ArrayIsBad(s, b, c, dict);
      NothingThere(s, b[..n], c, dict);
    } else {
      PduLocal(s, b[..n], b, c, dict);
      PdusBeforeLate(s, b, Pdu(s, b, c, dict).next, dict);
    }
  }

  lemma ArrayIsBad(s: Server, b: Bytes, c: nat, dict: Dict)
    requires c <= |b| && NextType(b, c) == ARRAY
    ensures Pdu(s, b, c, dict) == Bad
  {}

  lemma NothingThere(s: Server, b: Bytes, c: nat, dict: Dict)
    requires c == |b|
    ensures Pdu(s, b, c, dict) == Again
  {}

  lemma StopsAt(s: Server, b: Bytes, c: nat, dict: Dict)
    requires c < |b| && NextType(b, c) != ARRAY
    ensures Dicts(s, b, c, dict) == (Stop, State(c, dict))
  {}

  lemma LastChunk(s: Server, b: Bytes, st: State)
    requires st.cons <= |b|
    ensures Chunked(s, b, [|b|], st) == Worker(s, b, st)
  {
    assert b[..|b|] == b && [|b|][1..] == [];
    var r := Worker(s, b, st);
    assert r.samples + [] == r.samples;
  }

  // ----- When the chunks matter

  lemma {:induction false} DictsLocal(s: Server, a: Bytes, b: Bytes, c: nat, dict: Dict)
    requires a <= b && c <= |a| && Dicts(s, b, c, dict).0 == Stop && Dicts(s, b, c, dict).1.cons < |a|
    ensures Dicts(s, a, c, dict) == Dicts(s, b, c, dict)
    decreases |a| - c
  {
    hide Dictionary, NextType;
    TypeLocal(a, b, c);
    if NextType(b, c) == ARRAY {
      var (d, r) := Dictionary(s, b, c, dict);
      DictionaryLocal(s, a, b, c, dict);
      DictsLocal(s, a, b, r.next, d);
    }
  }

  /** Where the parser stands before the first late array. */
  function BeforeLate(s: Server, b: Bytes, st: State): (r: State)
    requires st.cons <= |b| && !NoLateArray(s, b, st)
    ensures st.cons <= r.cons < |b| && NextType(b, r.cons) == ARRAY
  {
    var next := Dicts(s, b, st.cons, st.dict).1;
    State(LateAt(s, b, next.cons, next.dict), next.dict)
  }

  /** Reading a late array as a dictionary, and on from there, writes nothing and throws. */
  predicate LateFails(s: Server, b: Bytes, st: State)
    requires st.cons <= |b| && !NoLateArray(s, b, st)
  {
    var rest := Worker(s, b, BeforeLate(s, b, st));
    rest.samples == [] && rest.failed
  }

  predicate SameEffect(r: Outcome, q: Outcome) {
    r.samples == q.samples && r.failed == q.failed
  }

  /** A way of cutting the rest of the stream, behind the `have` bytes received, into chunks of at most `size`. */
  predicate Chunking(b: Bytes, have: nat, size: nat, ends: seq<nat>) {
    && Growing(b, ends) && ends != [] && ends[|ends| - 1] == |b|
    && have <= ends[0] <= have + size
    && forall i :: 0 < i < |ends| ==> ends[i] - ends[i - 1] <= size
  }

  lemma ChunkingCuts(b: Bytes, st: State, have: nat, size: nat, ends: seq<nat>)
    requires Chunking(b, have, size, ends) && st.cons <= have
    ensures Cutting(b, st, ends)
  {}

  /** Every way of cutting the rest writes the same samples and meets the same error. */
  ghost predicate ChunksAgree(s: Server, b: Bytes, st: State, have: nat, size: nat)
    requires st.cons <= have
  {
    forall xs, ys :: Chunking(b, have, size, xs) && Chunking(b, have, size, ys) ==>
      SameEffect(Chunked(s, b, xs, st), Chunked(s, b, ys, st))
  }

  /** Up to the late array everything is written, and the parser waits there. */
  lemma AtLate(s: Server, b: Bytes, st: State)
    requires st.cons <= |b| && !NoLateArray(s, b, st)
    ensures
      var at := BeforeLate(s, b, st);
      && Worker(s, b, st).failed
      && Worker(s, b[..at.cons], st) == Outcome(Worker(s, b, st).samples, at, false)
  {
    hide Dicts, Pdus, Late, LateAt;
    var (end, next) := Dicts(s, b, st.cons, st.dict);
    var n := BeforeLate(s, b, st).cons;
    PdusBeforeLate(s, b, next.cons, next.dict);
    assert n > next.cons;
    DictsLocal(s, b[..n], b, st.cons, st.dict);
  }

  /** A run over a first part that does not throw leaves the late array where it is. */
  lemma {:induction false} StillLate(s: Server, a: Bytes, b: Bytes, c: nat, dict: Dict)
    requires a <= b && c <= |a| && Late(s, b, c, dict) && !Pdus(s, a, c, dict).failed
    ensures var m := Pdus(s, a, c, dict).state.cons;
            Late(s, b, m, dict) && LateAt(s, b, m, dict) == LateAt(s, b, c, dict)
    decreases |a| - c
  {
    hide Pdu;
    PduStable(s, a, b, c, dict);
    var p := Pdu(s, a, c, dict);
    if p.Done? {
      if NextType(b, c) == ARRAY {
        ArrayIsBad(s, b, c, dict);
      }
      StillLate(s, a, b, p.next, dict);
    }
  }

  /** The same for `worker`: it throws as the whole stream does, or the rest has the same late array, and all of the
      whole is what was written and what the rest writes. */
  lemma WorkerBeforeLate(s: Server, a: Bytes, b: Bytes, st: State)
    requires a <= b && st.cons <= |a| && !NoLateArray(s, b, st)
    ensures
      var r := Worker(s, a, st);
      if r.failed then SameEffect(r, Worker(s, b, st))
      else if r.state == BeforeLate(s, b, st) then
        |a| == BeforeLate(s, b, st).cons && r.samples == Worker(s, b, st).samples
      else
        && !NoLateArray(s, b, r.state) && BeforeLate(s, b, r.state) == BeforeLate(s, b, st)
        && Worker(s, b, st).samples == r.samples + Worker(s, b, r.state).samples
  {
    hide Dicts, Pdus, Late, LateAt;
    var (end, next) := Dicts(s, a, st.cons, st.dict);
    var r := Worker(s, a, st);
    DictsStable(s, a, b, st.cons, st.dict);
    assert BeforeLate(s, b, st).cons > Dicts(s, b, st.cons, st.dict).1.cons;
    if end == More {
      assert [] + Worker(s, b, r.state).samples == Worker(s, b, r.state).samples;
    } else if end == Stop {
      PdusStable(s, a, b, next.cons, next.dict);
      if !r.failed {
        var m := r.state.cons;
        PdusEnd(s, a, next.cons, next.dict);
        ArrayHere(s, a, b, m, next.dict);
        StillLate(s, a, b, next.cons, next.dict);
        LateInside(s, b, m, next.dict);
        if NextType(b, m) == ARRAY {
          ArrayEnds(s, b, m, next.dict);
        } else {
          StopsAt(s, b, m, next.dict);
        }
      }
    }
  }

  /** Where the messages end, the next one is incomplete. */
  lemma {:induction false} PdusEnd(s: Server, b: Bytes, c: nat, dict: Dict)
    requires c <= |b| && !Pdus(s, b, c, dict).failed
    ensures Pdu(s, b, Pdus(s, b, c, dict).state.cons, dict) == Again
    decreases |b| - c
  {
    hide Pdu;
    var p := Pdu(s, b, c, dict);
    if p.Done? {
      PdusEnd(s, b, p.next, dict);
    }
  }

  lemma ArrayHere(s: Server, a: Bytes, b: Bytes, m: nat, dict: Dict)
    requires a <= b && m <= |a| && Pdu(s, a, m, dict) == Again
    ensures m < |b| && NextType(b, m) == ARRAY ==> m == |a|
  {
    if m < |a| && NextType(b, m) == ARRAY {
      ArrayIsBad(s, a, m, dict);
    }
  }

  lemma LateInside(s: Server, b: Bytes, c: nat, dict: Dict)
    requires c <= |b| && Late(s, b, c, dict)
    ensures c < |b| && (NextType(b, c) == ARRAY ==> LateAt(s, b, c, dict) == c)
  {
    hide Pdu;
    NothingThereAtEnd(s, b, c, dict);
  }

  lemma NothingThereAtEnd(s: Server, b: Bytes, c: nat, dict: Dict)
    requires c <= |b|
    ensures c == |b| ==> Pdu(s, b, c, dict) == Again
  {}

  lemma ArrayEnds(s: Server, b: Bytes, c: nat, dict: Dict)
    requires c < |b| && NextType(b, c) == ARRAY
    ensures Pdus(s, b, c, dict) == Outcome([], State(c, dict), true)
  {
    hide Pdu;
    ArrayIsBad(s, b, c, dict);
  }

  /** If reading on from the late array fails at once, there is no other late array behind it. */
  lemma FailsAlone(s: Server, b: Bytes, st: State)
    requires st.cons <= |b| && Worker(s, b, st).failed && Worker(s, b, st).samples == []
    ensures NoLateArray(s, b, st)
  {
    hide Pdu, Dicts;
    var (end, next) := Dicts(s, b, st.cons, st.dict);
    if end == Stop && Late(s, b, next.cons, next.dict) {
      PduWrites(s, b, next.cons, next.dict);
      assert false;
    }
  }

  lemma PduWrites(s: Server, b: Bytes, c: nat, dict: Dict)
    requires c <= |b|
    ensures Pdu(s, b, c, dict).Done? ==> Pdu(s, b, c, dict).value != []
  {
    hide ParseTimestamp, ParseValues;
  }

  lemma {:induction false} LateCuttings(s: Server, b: Bytes, ends: seq<nat>, st: State)
    requires Cutting(b, st, ends) && !NoLateArray(s, b, st) && LateFails(s, b, st)
    ensures SameEffect(Chunked(s, b, ends, st), Worker(s, b, st))
    decreases |ends|
  {
    hide Worker, NoLateArray, BeforeLate;
    AtLate(s, b, st);
    if |ends| == 1 {
      assert ends == [|b|];
      LastChunk(s, b, st);
    } else {
      var a := b[..ends[0]];
      var r := Worker(s, a, st);
      var at := BeforeLate(s, b, st);
      WorkerBeforeLate(s, a, b, st);
      assert ends[1..][|ends| - 2] == ends[|ends| - 1];
      if !r.failed {
        assert Cutting(b, r.state, ends[1..]);
        if r.state == at {
          FailsAlone(s, b, at);
          ChunksDoNotMatter(s, b, ends[1..], at);
        } else {
          LateCuttings(s, b, ends[1..], r.state);
          AtLate(s, b, r.state);
        }
      }
    }
  }

  /** No chunk ends right before the late array: then it throws as in one piece. */
  lemma {:induction false} LateSkipped(s: Server, b: Bytes, ends: seq<nat>, st: State)
    requires Cutting(b, st, ends) && !NoLateArray(s, b, st) && BeforeLate(s, b, st).cons !in ends
    ensures SameEffect(Chunked(s, b, ends, st), Worker(s, b, st))
    decreases |ends|
  {
    hide Worker, NoLateArray, BeforeLate;
    AtLate(s, b, st);
    if |ends| == 1 {
      assert ends == [|b|];
      LastChunk(s, b, st);
    } else {
      var a := b[..ends[0]];
      var r := Worker(s, a, st);
      WorkerBeforeLate(s, a, b, st);
      assert ends[0] in ends && ends[1..][|ends| - 2] == ends[|ends| - 1];
      if !r.failed {
        assert Cutting(b, r.state, ends[1..]);
        LateSkipped(s, b, ends[1..], r.state);
        AtLate(s, b, r.state);
      }
    }
  }

  /** A part of the stream that ends before the late array does not make the parser throw. */
  lemma NoThrowBefore(s: Server, b: Bytes, n: nat, st: State)
    requires st.cons <= n <= |b| && !NoLateArray(s, b, st) && n <= BeforeLate(s, b, st).cons
    ensures !Worker(s, b[..n], st).failed
  {
    hide Dicts, Pdus, Late, LateAt;
    AtLate(s, b, st);
    var at := BeforeLate(s, b, st);
    var (a, c) := (b[..n], b[..at.cons]);
    assert a <= c;
    DictsStable(s, a, c, st.cons, st.dict);
    var (end, next) := Dicts(s, a, st.cons, st.dict);
    if end == Stop {
      PdusStable(s, a, c, next.cons, next.dict);
    }
  }

  /** A chunk ends right before the late array: what was written up to there, and what the rest makes of it. */
  lemma {:induction false} LateHit(s: Server, b: Bytes, ends: seq<nat>, st: State) returns (rest: seq<nat>)
    requires Cutting(b, st, ends) && !NoLateArray(s, b, st) && BeforeLate(s, b, st).cons in ends
    ensures
      var at := BeforeLate(s, b, st);
      && Cutting(b, at, rest)
      && var q := Chunked(s, b, rest, at);
         Chunked(s, b, ends, st) == q.(samples := Worker(s, b, st).samples + q.samples)
    decreases |ends|
  {
    hide Worker, NoLateArray, BeforeLate;
    AtLate(s, b, st);
    var at := BeforeLate(s, b, st);
    var a := b[..ends[0]];
    rest := ends[1..];
    var k :| 0 <= k < |ends| && ends[k] == at.cons;
    assert |ends| > 1 && rest[|ends| - 2] == ends[|ends| - 1];
    if ends[0] != at.cons {
      var r := Worker(s, a, st);
      assert ends[1..][k - 1] == at.cons;
      NoThrowBefore(s, b, ends[0], st);
      WorkerBeforeLate(s, a, b, st);
      assert Cutting(b, r.state, ends[1..]);
      rest := LateHit(s, b, ends[1..], r.state);
      var q := Chunked(s, b, rest, at);
      assert r.samples + (Worker(s, b, r.state).samples + q.samples) == Worker(s, b, st).samples + q.samples;
    }
  }

  /** Whatever the chunks, at least the samples of the stream in one piece are written. */
  lemma {:induction false} WholeIsPrefix(s: Server, b: Bytes, ends: seq<nat>, st: State)
    requires Cutting(b, st, ends)
    ensures Worker(s, b, st).samples <= Chunked(s, b, ends, st).samples
  {
    hide Worker, NoLateArray, BeforeLate;
    if NoLateArray(s, b, st) {
      ChunksDoNotMatter(s, b, ends, st);
    } else if BeforeLate(s, b, st).cons in ends {
      var rest := LateHit(s, b, ends, st);
    } else {
      LateSkipped(s, b, ends, st);
    }
  }

  // ----- Two ways of cutting

  /** Every byte on its own, behind an empty chunk. */
  function EveryEnd(have: nat, n: nat): seq<nat>
    requires have <= n
  {
    seq(n - have + 1, i => have + i)
  }

  /** The same, but with no end at `n`. */
  function AllBut(have: nat, n: nat, last: nat): seq<nat>
    requires have <= n < last
  {
    seq(n - have, i => have + i) + seq(last - n, i => n + 1 + i)
  }

  lemma EndsAreChunkings(b: Bytes, have: nat, n: nat, size: nat)
    requires have <= n < |b| && size >= 2
    ensures Chunking(b, have, size, EveryEnd(have, |b|)) && n in EveryEnd(have, |b|)
    ensures Chunking(b, have, size, AllBut(have, n, |b|)) && n !in AllBut(have, n, |b|)
  {
    assert EveryEnd(have, |b|)[n - have] == n;
  }

  /** Main theorem on chunks, from any state with `have` bytes received, and for chunks of at most any size from two:
      all ways of cutting the rest agree on the samples and on failure if and only if no array follows the first
      message, or reading on from the first that does writes nothing and throws, or that array is among the bytes
      received. */
  lemma ChunksMatterExactly(s: Server, b: Bytes, st: State, have: nat, size: nat)
    requires st.cons <= have <= |b| && size >= 2
    ensures ChunksAgree(s, b, st, have, size) <==>
            NoLateArray(s, b, st) || LateFails(s, b, st) || have > BeforeLate(s, b, st).cons
  {
    hide Worker, NoLateArray, Chunked, BeforeLate, Growing;
    if NoLateArray(s, b, st) || LateFails(s, b, st) || have > BeforeLate(s, b, st).cons {
      forall ends | Chunking(b, have, size, ends) ensures SameEffect(Chunked(s, b, ends, st), Worker(s, b, st)) {
        ChunkingCuts(b, st, have, size, ends);
        if NoLateArray(s, b, st) {
          ChunksDoNotMatter(s, b, ends, st);
        } else if LateFails(s, b, st) {
          LateCuttings(s, b, ends, st);
        } else {
          EndsBehind(b, have, size, ends);
          LateSkipped(s, b, ends, st);
        }
      }
    } else {
      var at := BeforeLate(s, b, st);
      var (xs, ys) := (EveryEnd(have, |b|), AllBut(have, at.cons, |b|));
      EndsAreChunkings(b, have, at.cons, size);
      ChunkingCuts(b, st, have, size, xs);
      ChunkingCuts(b, st, have, size, ys);
      LateSkipped(s, b, ys, st);
      Differs(s, b, xs, st);
    }
  }

  lemma EndsBehind(b: Bytes, have: nat, size: nat, ends: seq<nat>)
    requires Chunking(b, have, size, ends)
    ensures forall n :: n in ends ==> n >= have
  {}

  /** If reading on from the late array does not fail at once, cutting right before it makes a difference. */
  lemma Differs(s: Server, b: Bytes, ends: seq<nat>, st: State)
    requires Cutting(b, st, ends) && !NoLateArray(s, b, st) && BeforeLate(s, b, st).cons in ends
    requires !LateFails(s, b, st)
    ensures !SameEffect(Chunked(s, b, ends, st), Worker(s, b, st))
  {
    hide Worker, NoLateArray, Chunked, BeforeLate, Growing;
    AtLate(s, b, st);
    var at := BeforeLate(s, b, st);
    var rest := LateHit(s, b, ends, st);
    var q := Chunked(s, b, rest, at);
    WholeIsPrefix(s, b, rest, at);
    if NoLateArray(s, b, at) {
      ChunksDoNotMatter(s, b, rest, at);
    } else {
      AtLate(s, b, at);
    }
    if q.samples != [] {
      assert |Worker(s, b, st).samples + q.samples| > |Worker(s, b, st).samples|;
    }
  }

  /** A message and an empty dictionary, "+a", ":1", ":2", "*0": an error in one piece, no error when cut in between. */
  lemma LateArrayExample(s: Server)
    requires s.lookup([97]) == [1]
    ensures
      var b := [43, 97, 10, 58, 49, 10, 58, 50, 10, 42, 48, 10];
      var st := State(0, map[]);
      Worker(s, b, st).failed && !Chunked(s, b, [9, 12], st).failed && !ChunksAgree(s, b, st, 0, 12)
  {
    hide Line, Digits, Worker, Chunked, Late, LateAt, Dicts, Pdu, ChunksAgree, Dictionary;
    var b := [43, 97, 10, 58, 49, 10, 58, 50, 10, 42, 48, 10];
    var st := State(0, map[]);
    ExampleMessage(s, b);
    StopsAt(s, b, 0, map[]);
    LateHere(s, b, map[]);
    AtLate(s, b, st);
    EmptyDictionary(s, b, 9);
    TwoChunks(s, b, st, 9);
    ChunksMatterExactly(s, b, st, 0, 12);
  }

  lemma TwoChunks(s: Server, b: Bytes, st: State, n: nat)
    requires st.cons <= n <= |b| && !Worker(s, b[..n], st).failed
    ensures Chunked(s, b, [n, |b|], st).failed == Worker(s, b, Worker(s, b[..n], st).state).failed
  {
    hide Worker;
    assert [n, |b|][1..] == [|b|];
    LastChunk(s, b, Worker(s, b[..n], st).state);
  }

  lemma ExampleMessage(s: Server, b: Bytes)
    requires s.lookup([97]) == [1] && b == [43, 97, 10, 58, 49, 10, 58, 50, 10, 42, 48, 10]
    ensures Pdu(s, b, 0, map[]).Done? && Pdu(s, b, 0, map[]).next == 9
    ensures Dictionary(s, b, 9, map[]) == (map[], Done((), 12))
  {
    hide Line, Digits;
    ExampleLines(b);
    assert [97, 10][..1] == [97];
    assert ParseIds(s, b, 0, map[]) == Done([1], 3);
    assert ParseTimestamp(s, b, 3) == Done(1, 6);
    assert ParseValues(s, b, 6, [1]) == Done([Whole(2)], 9);
  }

  lemma LateHere(s: Server, b: Bytes, dict: Dict)
    requires |b| > 9 && NextType(b, 0) != ARRAY && NextType(b, 9) == ARRAY
    requires Pdu(s, b, 0, dict).Done? && Pdu(s, b, 0, dict).next == 9
    ensures Late(s, b, 0, dict) && LateAt(s, b, 0, dict) == 9
  {
    hide Pdu;
  }

  lemma EmptyDictionary(s: Server, b: Bytes, c: nat)
    requires c < |b| && NextType(b, c) == ARRAY && Dictionary(s, b, c, map[]) == (map[], Done((), |b|))
    ensures !Worker(s, b, State(c, map[])).failed
  {
    assert Dicts(s, b, |b|, map[]) == (More, State(|b|, map[]));
  }

  lemma ExampleLines(b: Bytes)
    requires b == [43, 97, 10, 58, 49, 10, 58, 50, 10, 42, 48, 10]
    ensures Line(b, 1, 1024) == Done([97, 10], 3)
    ensures Line(b, 4, 22) == Done([49, 10], 6) && Digits([49, 10], 0, 0) == Done(1, 2)
    ensures Line(b, 7, 22) == Done([50, 10], 9) && Digits([50, 10], 0, 0) == Done(2, 2)
    ensures Line(b, 10, 22) == Done([48, 10], 12) && Digits([48, 10], 0, 0) == Done(0, 2)
  {
    assert Line(b, 2, 1023) == Done([10], 3) && Line(b, 5, 21) == Done([10], 6);
    assert Line(b, 8, 21) == Done([10], 9) && Line(b, 11, 21) == Done([10], 12);
    assert [b[1]] + [10] == [97, 10] && [b[4]] + [10] == [49, 10];
    assert [b[7]] + [10] == [50, 10] && [b[10]] + [10] == [48, 10];
    assert Digits([49, 10], 1, 1) == Done(1, 2) && Digits([50, 10], 1, 2) == Done(2, 2);
    assert Digits([48, 10], 1, 0) == Done(0, 2);
  }
}
