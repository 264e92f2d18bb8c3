/** The receiver's continuous window: which sequence numbers have arrived from one sender, and
    up to which number they have all arrived. Reconnection asks for everything above it. */
module ReceivedWindow {
  const SCAN_MAX := 512

  /** Every number from 1 to `last` has been received. */
  ghost predicate NoGap(received: set<int>, last: int) {
    forall n :: 1 <= n <= last ==> n in received
  }

  /** How far a scan starting after `from` gets when it may look at `budget` numbers. */
  function Scan(received: set<int>, from: int, budget: nat): (last: int)
    ensures from <= last <= from + budget
    ensures forall n :: from < n <= last ==> n in received
    ensures last == from + budget || last + 1 !in received
    decreases budget
  {
    if budget == 0 || from + 1 !in received then from else Scan(received, from + 1, budget - 1)
  }

  /** A scan goes to the first missing number, or as far as the cap allows: no other result
      meets these conditions. */
  lemma ScanUnique(received: set<int>, from: int, budget: nat, last: int)
    requires from <= last <= from + budget
    requires forall n :: from < n <= last ==> n in received
    requires last == from + budget || last + 1 !in received
    ensures last == Scan(received, from, budget)
  {
    var s := Scan(received, from, budget);
    assert last < s ==> last + 1 in received;
    assert s < last ==> s + 1 in received;
  }

  class Window {
    /** The sorted set of one sender and the counter beside it. */
    var received: set<int>
    var last: int

    ghost predicate Valid()
      reads this
    {
      0 <= last && NoGap(received, last)
    }

    constructor ()
      ensures Valid() && received == {} && last == 0
    {
      received := {};
      last := 0;
    }

    /** Records one number, uninterrupted: the counter advances by the full cap or stops just
        before a number not yet received, and never goes back. */
    method Record(seqNo: int)
      requires Valid()
      modifies this
      ensures Valid()
      ensures received == if seqNo <= 0 then old(received) else old(received) + {seqNo}
      ensures seqNo <= 0 ==> last == old(last)
      ensures seqNo > 0 ==> last == Scan(received, old(last), 512)
    {
      if seqNo <= 0 {
        return;
      }
      received := received + {seqNo};
      var cursor := last + 1;
      var scanned := 0;
      while scanned < SCAN_MAX && cursor in received
        invariant scanned <= SCAN_MAX && cursor == last + 1 + scanned
        invariant forall n :: last < n < cursor ==> n in received
      {
        cursor := cursor + 1;
        scanned := scanned + 1;
      }
      ScanUnique(received, last, SCAN_MAX, cursor - 1);
      if cursor - 1 > last {
        last := cursor - 1;
      }
    }
  }

  // ---- concurrent handlers -----------------------------------------------------------

  /** A handler between two store operations. */
  datatype Handler =
    | Added
    | Scanning(read: int, cursor: int, scanned: nat)
    | Settled(read: int, cursor: int)

  datatype State = State(received: set<int>, last: int, handlers: map<nat, Handler>)

  datatype Step =
    | Add(id: nat, seqNo: int)
    | ReadLast(id: nat)
    | Probe(id: nat)
    | Write(id: nat)
    | Drop(id: nat)

  const INIT := State({}, 0, map[])

  predicate Enabled(s: State, step: Step) {
    match step
    case Add(id, seqNo) => id !in s.handlers && seqNo > 0
    case ReadLast(id) => id in s.handlers && s.handlers[id].Added?
    case Probe(id) => id in s.handlers && s.handlers[id].Scanning?
    case Write(id) => id in s.handlers && s.handlers[id].Settled?
    case Drop(id) => id in s.handlers
  }

  function Apply(s: State, step: Step): State
    requires Enabled(s, step)
  {
    match step
    case Add(id, seqNo) =>
      s.(received := s.received + {seqNo}, handlers := s.handlers[id := Added])
    case ReadLast(id) => s.(handlers := s.handlers[id := Scanning(s.last, s.last + 1, 0)])
    case Probe(id) =>
      var h := s.handlers[id];
      s.(handlers := s.handlers[id :=
        if h.scanned < SCAN_MAX && h.cursor in s.received
        then Scanning(h.read, h.cursor + 1, h.scanned + 1)
        else Settled(h.read, h.cursor)])
    case Write(id) =>
      var h := s.handlers[id];
      s.(last := if h.cursor - 1 > h.read then h.cursor - 1 else s.last, handlers := s.handlers - {id})
    case Drop(id) => s.(handlers := s.handlers - {id})
  }

  function Exec(steps: seq<Step>): State {
    if steps == [] then INIT
    else
      var s := Exec(steps[..|steps| - 1]);
      var step := steps[|steps| - 1];
      if Enabled(s, step) then Apply(s, step) else s
  }

  ghost predicate Inv(s: State) {
    && NoGap(s.received, s.last)
    && forall id :: id in s.handlers && !s.handlers[id].Added? ==> NoGap(s.received, s.handlers[id].cursor - 1)
  }

  lemma StepKeeps(s: State, step: Step)
    requires Inv(s) && Enabled(s, step)
    ensures Inv(Apply(s, step))
    ensures s.received <= Apply(s, step).received
  {
  }

  /** However handlers interleave or die, the counter never passes a gap. */
  lemma {:induction false} NeverPassesGap(steps: seq<Step>)
    ensures Inv(Exec(steps))
    ensures NoGap(Exec(steps).received, Exec(steps).last)
  {
    if steps != [] {
      NeverPassesGap(steps[..|steps| - 1]);
      var s := Exec(steps[..|steps| - 1]);
      var step := steps[|steps| - 1];
      if Enabled(s, step) {
        StepKeeps(s, step);
      }
    }
  }

  /** A step moves the counter back exactly when it writes a scan that another write has
      overtaken since its own read. */
  lemma CounterDropsIff(s: State, step: Step)
    requires Enabled(s, step)
    ensures Apply(s, step).last < s.last
            <==> step.Write? && s.handlers[step.id].read < s.handlers[step.id].cursor - 1 < s.last
  {
  }

  lemma ExecPush(steps: seq<Step>, step: Step)
    requires Enabled(Exec(steps), step)
    ensures Exec(steps + [step]) == Apply(Exec(steps), step)
  {
    assert (steps + [step])[..|steps|] == steps;
  }

  /** From the read to the write, a handler that is not interrupted does what the method does. */
  lemma {:induction false} AloneIsAtomic(steps: seq<Step>, id: nat, n: nat, before: State) returns (done: seq<Step>)
    requires before.last >= 0 && id !in before.handlers && n <= SCAN_MAX
    requires Exec(steps) == before.(handlers := before.handlers[id := Scanning(before.last, before.last + 1 + n, n)])
    requires NoGap(before.received, before.last + n)
    ensures steps < done
    ensures Exec(done) == before.(last := Scan(before.received, before.last, SCAN_MAX))
    decreases SCAN_MAX - n
  {
    var s := Exec(steps);
    ExecPush(steps, Probe(id));
    var probed := steps + [Probe(id)];
    var h := s.handlers[id];
    if n < SCAN_MAX && h.cursor in s.received {
      assert Exec(probed)
          == before.(handlers := before.handlers[id := Scanning(before.last, before.last + 1 + (n + 1), n + 1)]);
      done := AloneIsAtomic(probed, id, n + 1, before);
    } else {
      assert Exec(probed) == before.(handlers := before.handlers[id := Settled(before.last, before.last + 1 + n)]);
      ExecPush(probed, Write(id));
      done := probed + [Write(id)];
      ScanUnique(before.received, before.last, SCAN_MAX, before.last + n);
      assert before.handlers[id := Settled(before.last, before.last + 1 + n)] - {id} == before.handlers;
    }
  }

  /** Which does happen: one handler scans to 1, a second one scans to 2 and writes, and the
      first one's write takes the counter back to 1. */
  lemma CounterCanDrop() returns (high: seq<Step>, low: seq<Step>)
    ensures high < low && Exec(high).last == 2 && Exec(low).last == 1
  {
    var first := SettledAt([], 0, 1, State({}, 0, map[]));
    var s := State({1}, 0, map[0 := Settled(0, 2)]);
    assert Exec(first) == s;
    ExecPush(first, Add(1, 2));
    var added := first + [Add(1, 2)];
    ExecPush(added, ReadLast(1));
    var reading := added + [ReadLast(1)];
    var before := State({1, 2}, 0, map[0 := Settled(0, 2)]);
    assert Exec(reading) == before.(handlers := before.handlers[1 := Scanning(0, 1, 0)]);
    high := AloneIsAtomic(reading, 1, 0, before);
    ScanUnique({1, 2}, 0, SCAN_MAX, 2);
    ExecPush(high, Write(0));
    low := high + [Write(0)];
  }

  /** A handler records the next number and scans up to it, but has not written yet. */
  lemma SettledAt(steps: seq<Step>, id: nat, seqNo: int, before: State) returns (done: seq<Step>)
    requires Exec(steps) == before && id !in before.handlers
    requires seqNo == before.last + 1 > 0 && seqNo + 1 !in before.received
    ensures Exec(done) == State(before.received + {seqNo}, before.last,
                                before.handlers[id := Settled(before.last, seqNo + 1)])
  {
    ExecPush(steps, Add(id, seqNo));
    var a := steps + [Add(id, seqNo)];
    ExecPush(a, ReadLast(id));
    var r := a + [ReadLast(id)];
    ExecPush(r, Probe(id));
    var p := r + [Probe(id)];
    ExecPush(p, Probe(id));
    done := p + [Probe(id)];
  }
}
