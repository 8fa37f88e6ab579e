/**
 The thread-safe wrapper as a state machine.  Every section that runs under the
 wrapper's mutex is one atomic step; a read callback runs between two sections
 and is represented by an occurrence of its ref in `inside`.

 A call of the modification function is identified by its index in `calls`, a
 ref by the number it was given when it was created.
 */
module ThreadSafeWrapper {
  import opened Common

  /** readerCount is a 16-bit unsigned counter. */
  const READER_RANGE := 0x1_0000

  datatype Future = Future(complete: bool, applied: bool)

  /** What happened so far to one call of the modification function. */
  datatype Call = Call(target: Option<nat>, runs: nat, contextFreed: nat, future: Option<Future>)

  /** A modification function together with the call that brought it. */
  datatype Mod<!I> = Mod(call: nat, f: I -> I)

  /** An item ref; `initial` and `enqueued` record its history. */
  datatype Ref<!I> = Ref(item: I, readerCount: nat, pending: seq<Mod<I>>,
                         initial: I, enqueued: seq<Mod<I>>)

  datatype State<!I> = State(autoRelease: Option<I -> bool>, autoAssign: bool,
                             ref: Option<nat>, mem: map<nat, Ref<I>>,
                             calls: seq<Call>, inside: multiset<nat>,
                             destroyed: multiset<nat>, nextRef: nat)

  datatype Op<!I> =
    | Assign(item: I)
    | AssignIfReleased(getItem: Option<I>, auto: I)
    | Release(check: Option<I -> bool>)
    | ReadBegin
    | ReadEnd(r: nat)
    | Enqueue(f: I -> I, hasFuture: bool, auto: I)

  /** The item that results from running `mods` on `item` in order. */
  function Fold<I>(item: I, mods: seq<Mod<I>>): I {
    if mods == [] then item
    else mods[|mods| - 1].f(Fold(item, mods[..|mods| - 1]))
  }

  predicate Holds<I>(mods: seq<Mod<I>>, call: nat) {
    exists k :: 0 <= k < |mods| && mods[k].call == call
  }

  function Resolved(c: Call, applied: bool): Call {
    c.(runs := c.runs + Bit(applied), contextFreed := c.contextFreed + 1,
       future := if c.future.Some? then Some(Future(true, applied)) else None)
  }

  /** Every call in `mods` is resolved; the others are left alone. */
  ghost function ResolveAll<I>(calls: seq<Call>, mods: seq<Mod<I>>, applied: bool): seq<Call> {
    seq(|calls|, i requires 0 <= i < |calls| =>
          if Holds(mods, i) then Resolved(calls[i], applied) else calls[i])
  }

  function Init<I>(autoRelease: Option<I -> bool>, autoAssign: bool): State<I> {
    State(autoRelease, autoAssign, None, map[], [], multiset{}, multiset{}, 0)
  }

  function NewRef<I>(item: I): Ref<I> {
    Ref(item, 0, [], item, [])
  }

  function Attach<I>(s: State<I>, item: I): State<I> {
    s.(ref := Some(s.nextRef), mem := s.mem[s.nextRef := NewRef(item)], nextRef := s.nextRef + 1)
  }

  ghost function ApplyModifications<I>(s: State<I>, r: nat): State<I>
    requires r in s.mem
  {
    var ref := s.mem[r];
    s.(mem := s.mem[r := ref.(item := Fold(ref.item, ref.pending), pending := [])],
       calls := ResolveAll(s.calls, ref.pending, true))
  }

  ghost function DestroyRef<I>(s: State<I>, r: nat): State<I>
    requires r in s.mem
  {
    s.(mem := s.mem - {r}, calls := ResolveAll(s.calls, s.mem[r].pending, false),
       destroyed := s.destroyed + multiset{r})
  }

  ghost function PostModificationCheckRelease<I>(s: State<I>, r: nat): State<I>
    requires r in s.mem
  {
    if s.autoRelease.Some? && s.autoRelease.value(s.mem[r].item) then
      var s' := DestroyRef(s, r);
      if s'.ref == Some(r) then s'.(ref := None) else s'
    else s
  }

  /** The wrapper's ref names a ref that exists. */
  ghost predicate Attached<I>(s: State<I>) {
    s.ref.Some? ==> s.ref.value in s.mem
  }

  /** getRef: bring the attached ref up to date if nobody reads it. */
  ghost function GetRef<I>(s: State<I>): (s': State<I>)
    requires Attached(s)
    ensures Attached(s')
  {
    if s.ref.Some? && s.mem[s.ref.value].readerCount == 0 then
      PostModificationCheckRelease(ApplyModifications(s, s.ref.value), s.ref.value)
    else s
  }

  ghost function DoRelease<I>(s: State<I>, check: I -> bool): (s': State<I>)
    requires Attached(s)
    ensures Attached(s')
  {
    var s1 := GetRef(s);
    if s1.ref.None? || !check(s1.mem[s1.ref.value].item) then s1
    else
      var r := s1.ref.value;
      (if s1.mem[r].readerCount == 0 then DestroyRef(s1, r) else s1).(ref := None)
  }

  ghost function DoReadBegin<I>(s: State<I>): (s': State<I>)
    requires Attached(s)
    ensures Attached(s')
  {
    var s1 := GetRef(s);
    if s1.ref.None? then s1
    else
      var r := s1.ref.value;
      s1.(mem := s1.mem[r := s1.mem[r].(readerCount := (s1.mem[r].readerCount + 1) % READER_RANGE)],
          inside := s1.inside + multiset{r})
  }

  /** The last reader of `r` leaves: destroy a released ref, apply the queue of an attached one. */
  ghost function LeaveLast<I>(s: State<I>, r: nat): (s': State<I>)
    requires Attached(s) && r in s.mem
    ensures Attached(s')
  {
    if s.ref != Some(r) then DestroyRef(s, r)
    else if s.mem[r].pending != [] then PostModificationCheckRelease(ApplyModifications(s, r), r)
    else s
  }

  ghost function DoReadEnd<I>(s: State<I>, r: nat): (s': State<I>)
    requires Attached(s) && r in s.mem
    ensures Attached(s')
  {
    var count := (s.mem[r].readerCount + READER_RANGE - 1) % READER_RANGE;
    var s1 := s.(mem := s.mem[r := s.mem[r].(readerCount := count)], inside := s.inside - multiset{r});
    if count != 0 then s1 else LeaveLast(s1, r)
  }

  ghost function DoEnqueue<I>(s: State<I>, f: I -> I, hasFuture: bool, auto: I): (s': State<I>)
    requires Attached(s)
    ensures Attached(s')
  {
    var s1 := GetRef(s);
    var s2 := if s1.ref.None? && s1.autoAssign then Attach(s1, auto) else s1;
    var id := |s2.calls|;
    var call := Call(s2.ref, 0, 0, if hasFuture then Some(Future(false, false)) else None);
    if s2.ref.None? then s2.(calls := s2.calls + [call.(contextFreed := 1)])
    else
      var r := s2.ref.value;
      var ref := s2.mem[r];
      if ref.readerCount == 0 then
        var s3 := s2.(mem := s2.mem[r := ref.(item := f(ref.item), enqueued := ref.enqueued + [Mod(id, f)])],
                      calls := s2.calls + [Resolved(call, true)]);
        PostModificationCheckRelease(s3, r)
      else
        s2.(mem := s2.mem[r := ref.(pending := ref.pending + [Mod(id, f)], enqueued := ref.enqueued + [Mod(id, f)])],
            calls := s2.calls + [call])
  }

  /** One atomic step.  A read can end only where one is under way. */
  ghost function Step<I>(s: State<I>, op: Op<I>): (s': State<I>)
    requires Attached(s)
    ensures Attached(s')
  {
    match op
    case Assign(item) => if s.ref.None? then Attach(s, item) else s
    case AssignIfReleased(getItem, auto) =>
      if getItem.None? && !s.autoAssign then s
      else
        var s1 := GetRef(s);
        if s1.ref.None? then Attach(s1, if getItem.Some? then getItem.value else auto) else s1
    case Release(check) =>
      if check.Some? then DoRelease(s, check.value)
      else if s.autoRelease.Some? then DoRelease(s, s.autoRelease.value) else s
    case ReadBegin => DoReadBegin(s)
    case ReadEnd(r) => if s.inside[r] > 0 && r in s.mem then DoReadEnd(s, r) else s
    case Enqueue(f, hasFuture, auto) => DoEnqueue(s, f, hasFuture, auto)
  }

  ghost function Run<I>(s: State<I>, ops: seq<Op<I>>): (s': State<I>)
    requires Attached(s)
    ensures Attached(s')
  {
    if ops == [] then s else Step(Run(s, ops[..|ops| - 1]), ops[|ops| - 1])
  }
}
