/**
 The reader/writer spin lock of skynet-src/skynet_rwlock.h, for any number of threads and every
 interleaving of its atomic loads, stores, increments, decrements and compare-and-swaps
 (sequentially consistent, as the `__sync` builtins selected by the Makefile give).
 */
module RwLock {
  datatype Pc =
    | WaitWriter       // while(ATOM_LOAD(&lock->write)) {}
    | Enter            // ATOM_FINC(&lock->read)
    | Recheck          // if (ATOM_LOAD(&lock->write))
    | Retreat          // ATOM_FDEC(&lock->read), back to the loop
    | Reading
    | Leave            // runlock
    | Claim            // while (!ATOM_CAS(&lock->write, 0, 1)) {}
    | WaitReaders      // while(ATOM_LOAD(&lock->read)) {}
    | Writing
    | Release          // wunlock

  /** A thread that is not in `pcs` is outside the lock. */
  datatype State = State(write: int, read: int, pcs: map<nat, Pc>)

  datatype Step = AskRead(t: nat) | AskWrite(t: nat) | Move(t: nat)

  const INITIAL := State(0, 0, map[])

  predicate CanDo(s: State, step: Step) {
    if step.Move? then step.t in s.pcs else step.t !in s.pcs
  }

  function Goto(s: State, t: nat, pc: Pc): State {
    s.(pcs := s.pcs[t := pc])
  }

  function Do(s: State, step: Step): State
    requires CanDo(s, step)
  {
    var t := step.t;
    match step
    case AskRead(_) => Goto(s, t, WaitWriter)
    case AskWrite(_) => Goto(s, t, Claim)
    case Move(_) =>
      match s.pcs[t]
      case WaitWriter => if s.write != 0 then s else Goto(s, t, Enter)
      case Enter => Goto(s, t, Recheck).(read := s.read + 1)
      case Recheck => Goto(s, t, if s.write != 0 then Retreat else Reading)
      case Retreat => Goto(s, t, WaitWriter).(read := s.read - 1)
      case Reading => Goto(s, t, Leave)
      case Leave => s.(read := s.read - 1, pcs := s.pcs - {t})
      case Claim => if s.write == 0 then Goto(s, t, WaitReaders).(write := 1) else s
      case WaitReaders => if s.read != 0 then s else Goto(s, t, Writing)
      case Writing => Goto(s, t, Release)
      case Release => s.(write := 0, pcs := s.pcs - {t})
  }

  function Exec(steps: seq<Step>): State {
    if steps == [] then INITIAL
    else
      var before := Exec(steps[..|steps| - 1]);
      if CanDo(before, steps[|steps| - 1]) then Do(before, steps[|steps| - 1]) else before
  }

  /** Threads between their increment and their decrement of `read`. */
  function Counted(s: State): set<nat> {
    set t | t in s.pcs && s.pcs[t] in {Recheck, Retreat, Reading, Leave}
  }

  /** Threads that have set `write`. */
  function Claimed(s: State): set<nat> {
    set t | t in s.pcs && s.pcs[t] in {WaitReaders, Writing, Release}
  }

  predicate Inside(s: State, t: nat, pcs: set<Pc>) {
    t in s.pcs && s.pcs[t] in pcs
  }

  ghost predicate Inv(s: State) {
    && s.read == |Counted(s)|
    && s.write == |Claimed(s)| <= 1
    && (forall w, r :: Inside(s, w, {Writing, Release}) ==> !Inside(s, r, {Reading, Leave}))
  }

  lemma CountedStep(s: State, step: Step)
    requires CanDo(s, step)
    ensures var t := step.t;
            && Counted(Do(s, step)) == (if step.Move? && s.pcs[t] == Enter then Counted(s) + {t}
                                        else if step.Move? && s.pcs[t] in {Retreat, Leave} then Counted(s) - {t}
                                        else Counted(s))
            && Claimed(Do(s, step)) == (if step.Move? && s.pcs[t] == Claim && s.write == 0 then Claimed(s) + {t}
                                        else if step.Move? && s.pcs[t] == Release then Claimed(s) - {t}
                                        else Claimed(s))
  {
  }

  /** A writer gets in only with no reader counted, a reader only with no writer announced. */
  lemma ExclusionStep(s: State, step: Step, w: nat, r: nat)
    requires Inv(s) && CanDo(s, step) && Inside(Do(s, step), w, {Writing, Release})
    ensures !Inside(Do(s, step), r, {Reading, Leave})
  {
    assert Inside(s, r, {Recheck, Reading, Leave}) ==> r in Counted(s);
    assert Inside(s, w, {WaitReaders, Writing, Release}) ==> w in Claimed(s);
    assert Inside(s, w, {Writing, Release}) ==> !Inside(s, r, {Reading, Leave});
  }

  lemma StepInv(s: State, step: Step)
    requires Inv(s) && CanDo(s, step)
    ensures Inv(Do(s, step))
  {
    var t, s' := step.t, Do(s, step);
    CountedStep(s, step);
    assert step.Move? && s.pcs[t] in {Retreat, Leave} ==> t in Counted(s);
    assert step.Move? && s.pcs[t] == Enter ==> t !in Counted(s);
    assert step.Move? && s.pcs[t] == Release ==> t in Claimed(s);
    forall w, r | Inside(s', w, {Writing, Release})
      ensures !Inside(s', r, {Reading, Leave})
    {
      ExclusionStep(s, step, w, r);
    }
    hide Inside;
  }

  lemma {:induction false} RunInv(steps: seq<Step>)
    ensures Inv(Exec(steps))
  {
    hide Do;
    if steps != [] {
      RunInv(steps[..|steps| - 1]);
      var before := Exec(steps[..|steps| - 1]);
      if CanDo(before, steps[|steps| - 1]) {
        StepInv(before, steps[|steps| - 1]);
      }
    }
  }

  /** Never two writers inside, and never a reader beside a writer. */
  lemma Exclusion(steps: seq<Step>, a: nat, b: nat)
    ensures var s := Exec(steps);
            Inside(s, a, {Writing, Release}) && a != b ==>
              !Inside(s, b, {Writing, Release}) && !Inside(s, b, {Reading, Leave})
  {
    RunInv(steps);
    var s := Exec(steps);
    AtMostOne(Claimed(s), a, b);
  }

  lemma AtMostOne(s: set<nat>, a: nat, b: nat)
    requires |s| <= 1
    ensures a in s && b in s ==> a == b
  {
    if a in s {
      assert |s - {a}| == 0;
    }
  }

  /** `read` is the number of threads between their increment and decrement, on every run. */
  lemma ReadCounts(steps: seq<Step>)
    ensures Exec(steps).read == |Counted(Exec(steps))|
    ensures Exec(steps).write == 1 <==> Claimed(Exec(steps)) != {}
  {
    RunInv(steps);
  }
}
