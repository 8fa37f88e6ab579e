/**
 When the wrapper lets go of its item.  The automatic release is decided by the item with
 all its modifications, once nobody reads it; nothing else but a release detaches it, and
 what is enqueued on an item that stays is never turned away.
 */
module WrapperRelease {
  import opened Common
  import opened ThreadSafeWrapper
  import opened WrapperSafety
  import opened WrapperTheorems

  /** The wrapper's own function says that this item may go. */
  ghost predicate Unwanted<I>(s: State<I>, item: I) {
    s.autoRelease.Some? && s.autoRelease.value(item)
  }

  /** The attached ref `r`, unread and so without a queue. */
  ghost predicate Resting<I>(s: State<I>, r: nat) {
    Inv(s) && s.ref == Some(r) && s.inside[r] == 0
  }

  /** The same without the rest of the invariant. */
  ghost predicate AtRest<I>(s: State<I>, r: nat) {
    s.ref == Some(r) && r in s.mem && s.mem[r].readerCount == 0 && s.mem[r].pending == []
  }

  lemma RestingHasNoQueue<I>(s: State<I>, r: nat)
    requires Resting(s, r)
    ensures AtRest(s, r) && Eager(s.mem[r]) == s.mem[r].item && r < s.nextRef
  {
    assert RefOk(s, r, {});
    ApplyKeepsHistory(s.mem[r]);
  }

  lemma GetRefAtRest<I>(s: State<I>, r: nat)
    requires AtRest(s, r)
    ensures GetRef(s) == if Unwanted(s, s.mem[r].item) then DestroyRef(s, r).(ref := None) else s
  {
    ApplyEmpty(s, r);
  }

  lemma ReadAtRest<I>(s: State<I>, r: nat)
    requires AtRest(s, r)
    ensures var s' := Step(s, ReadBegin);
            if Unwanted(s, s.mem[r].item) then s'.ref.None? && r !in s'.mem && s'.inside == s.inside
            else s'.ref == Some(r) && s'.inside == s.inside + multiset{r} && r in s'.mem && s'.mem[r].item == s.mem[r].item
  {
    GetRefAtRest(s, r);
  }

  /** A read of an unwanted item finds none; any other item stays and gets one more reader. */
  lemma ReadFinds<I>(s: State<I>, r: nat)
    requires Resting(s, r)
    ensures r in s.mem
    ensures var s' := Step(s, ReadBegin);
            if Unwanted(s, Eager(s.mem[r])) then s'.ref.None? && r !in s'.mem && s'.inside == s.inside
            else s'.ref == Some(r) && s'.inside[r] == 1 && r in s'.mem && s'.mem[r].item == s.mem[r].item
  {
    RestingHasNoQueue(s, r);
    ReadAtRest(s, r);
  }

  lemma AssignAtRest<I>(s: State<I>, r: nat, getItem: Option<I>, auto: I)
    requires AtRest(s, r) && r < s.nextRef && (getItem.Some? || s.autoAssign)
    ensures var s' := Step(s, AssignIfReleased(getItem, auto));
            if Unwanted(s, s.mem[r].item) then
              && r !in s'.mem && s'.ref == Some(s.nextRef) && s.nextRef in s'.mem
              && s'.mem[s.nextRef].item == (if getItem.Some? then getItem.value else auto)
            else s' == s
  {
    GetRefAtRest(s, r);
  }

  /** Assigning if released replaces an unwanted item and leaves any other. */
  lemma AssignIfReleasedFinds<I>(s: State<I>, r: nat, getItem: Option<I>, auto: I)
    requires Resting(s, r) && (getItem.Some? || s.autoAssign)
    ensures r in s.mem
    ensures var s' := Step(s, AssignIfReleased(getItem, auto));
            if Unwanted(s, Eager(s.mem[r])) then
              && r !in s'.mem && s'.ref == Some(s.nextRef) && s.nextRef in s'.mem
              && s'.mem[s.nextRef].item == (if getItem.Some? then getItem.value else auto)
            else s' == s
  {
    RestingHasNoQueue(s, r);
    AssignAtRest(s, r, getItem, auto);
  }

  /** What a modification of an item at rest comes to. */
  ghost predicate Modified<I>(s: State<I>, r: nat, f: I -> I, s': State<I>)
    requires r in s.mem
  {
    var item := s.mem[r].item;
    && |s'.calls| == |s.calls| + 1
    && (!Unwanted(s, item) ==> s'.calls[|s.calls|].target == Some(r) && s'.calls[|s.calls|].runs == 1)
    && (!Unwanted(s, item) && Unwanted(s, f(item)) ==> s'.ref.None? && r !in s'.mem)
    && (!Unwanted(s, item) && !Unwanted(s, f(item)) ==>
          s'.ref == Some(r) && r in s'.mem && s'.mem[r].item == f(item) && Eager(s'.mem[r]) == f(Eager(s.mem[r])))
    && (Unwanted(s, item) ==> r !in s'.mem && s'.calls[|s.calls|].target == if s.autoAssign then Some(s.nextRef) else None)
  }

  lemma ModifyAtRest<I>(s: State<I>, r: nat, f: I -> I, hasFuture: bool, auto: I)
    requires AtRest(s, r) && r < s.nextRef
    ensures Modified(s, r, f, Step(s, Enqueue(f, hasFuture, auto)))
  {
    GetRefAtRest(s, r);
    assert (s.mem[r].enqueued + [Mod(|s.calls|, f)])[..|s.mem[r].enqueued|] == s.mem[r].enqueued;
  }

  /**
   A modification of an unread item: run at once unless the item was unwanted as it stood,
   and the modified item stays exactly if it is wanted.
   */
  lemma EnqueueAtRest<I>(s: State<I>, r: nat, f: I -> I, hasFuture: bool, auto: I)
    requires Resting(s, r)
    ensures r in s.mem && Eager(s.mem[r]) == s.mem[r].item
    ensures Modified(s, r, f, Step(s, Enqueue(f, hasFuture, auto)))
  {
    RestingHasNoQueue(s, r);
    ModifyAtRest(s, r, f, hasFuture, auto);
  }

  /** A modification of an item that is being read is always accepted and waits behind the others. */
  lemma EnqueueWhileRead<I>(s: State<I>, r: nat, f: I -> I, hasFuture: bool, auto: I)
    requires Inv(s) && s.ref == Some(r) && s.inside[r] > 0
    ensures var s' := Step(s, Enqueue(f, hasFuture, auto));
            && s'.ref == Some(r) && r in s'.mem && s'.mem[r].item == s.mem[r].item
            && |s'.calls| == |s.calls| + 1 && s'.calls[|s.calls|].target == Some(r) && s'.calls[|s.calls|].runs == 0
            && Eager(s'.mem[r]) == f(Eager(s.mem[r]))
            && |s'.mem[r].pending| == |s.mem[r].pending| + 1
  {
    assert RefOk(s, r, {});
    assert (s.mem[r].enqueued + [Mod(|s.calls|, f)])[..|s.mem[r].enqueued|] == s.mem[r].enqueued;
  }

  /** A modification with nothing attached is turned away, unless the wrapper makes an item for it. */
  lemma EnqueueWithout<I>(s: State<I>, f: I -> I, hasFuture: bool, auto: I)
    requires Inv(s) && s.ref.None?
    ensures var s' := Step(s, Enqueue(f, hasFuture, auto));
            && |s'.calls| == |s.calls| + 1
            && s'.calls[|s.calls|].target == (if s.autoAssign then Some(s.nextRef) else None)
            && s'.calls[|s.calls|].runs == Bit(s.autoAssign)
            && (s'.ref == Some(s.nextRef) <==> s.autoAssign && !Unwanted(s, f(auto)))
            && (s'.ref.Some? ==> s'.ref == Some(s.nextRef) && s.nextRef in s'.mem && s'.mem[s.nextRef].item == f(auto))
  {
  }

  /** The last reader of an attached item leaves: its queue is run, and only then may it go. */
  lemma LastReaderApplies<I>(s: State<I>, r: nat)
    requires Inv(s) && s.ref == Some(r) && s.inside[r] == 1
    ensures r in s.mem
    ensures var s' := Step(s, ReadEnd(r));
            if s.mem[r].pending != [] && Unwanted(s, Eager(s.mem[r])) then s'.ref.None? && r !in s'.mem
            else s'.ref == Some(r) && r in s'.mem && s'.mem[r].item == Eager(s.mem[r]) && s'.mem[r].pending == []
  {
    assert RefOk(s, r, {});
    ApplyKeepsHistory(s.mem[r]);
    LastReaderRuns(s, r);
  }

  lemma LastReaderRuns<I>(s: State<I>, r: nat)
    requires s.ref == Some(r) && r in s.mem && s.mem[r].readerCount == 1 && s.inside[r] > 0
    ensures var s' := Step(s, ReadEnd(r));
            var item := Fold(s.mem[r].item, s.mem[r].pending);
            if s.mem[r].pending != [] && Unwanted(s, item) then s'.ref.None? && r !in s'.mem
            else s'.ref == Some(r) && r in s'.mem && s'.mem[r].item == item && s'.mem[r].pending == []
  {
  }

  /** A release lets go exactly if the item as it stands is agreed to, or unwanted at rest; it is destroyed at once exactly at rest. */
  lemma ReleaseLetsGoIff<I>(s: State<I>, r: nat, check: I -> bool)
    requires Inv(s) && s.ref == Some(r)
    ensures var s' := Step(s, Release(Some(check)));
            var item := s.mem[r].item;
            && (s'.ref.None? <==> check(item) || (s.inside[r] == 0 && Unwanted(s, item)))
            && (s'.ref.Some? ==> s'.ref == Some(r))
            && (r !in s'.mem <==> s'.ref.None? && s.inside[r] == 0)
  {
    assert RefOk(s, r, {});
    if s.inside[r] == 0 {
      RestingHasNoQueue(s, r);
      GetRefAtRest(s, r);
    }
  }

  /** An assignment attaches its item exactly if nothing is attached; assigning if released needs an item or the automatic one. */
  lemma AssignWithout<I>(s: State<I>, item: I, getItem: Option<I>, auto: I)
    requires Inv(s)
    ensures s.ref.Some? ==> Step(s, Assign(item)) == s
    ensures s.ref.None? ==>
              var s' := Step(s, Assign(item));
              s'.ref == Some(s.nextRef) && s.nextRef in s'.mem && s'.mem[s.nextRef].item == item && s'.mem[s.nextRef].pending == []
    ensures getItem.None? && !s.autoAssign ==> Step(s, AssignIfReleased(getItem, auto)) == s
    ensures s.ref.None? && (getItem.Some? || s.autoAssign) ==>
              var s' := Step(s, AssignIfReleased(getItem, auto));
              s'.ref == Some(s.nextRef) && s.nextRef in s'.mem && s'.mem[s.nextRef].item == if getItem.Some? then getItem.value else auto
  {
  }

  /** A release without a function of its own uses the wrapper's, and does nothing if there is none. */
  lemma ReleaseByDefault<I>(s: State<I>)
    requires Attached(s)
    ensures Step(s, Release(None)) == if s.autoRelease.Some? then Step(s, Release(s.autoRelease)) else s
  {
  }

  // ---- over all steps and runs ----

  /** After a modification, or the last reader of a queue, what is still attached and unread is wanted. */
  lemma WantedAfterModification<I>(s: State<I>, op: Op<I>)
    requires Inv(s)
    requires op.Enqueue? || (op.ReadEnd? && s.ref == Some(op.r) && s.inside[op.r] == 1 && s.mem[op.r].pending != [])
    ensures var s' := Step(s, op);
            s'.ref.Some? && s'.inside[s'.ref.value] == 0 ==> s'.ref.value in s'.mem && !Unwanted(s, s'.mem[s'.ref.value].item)
  {
    if op.ReadEnd? {
      LastReaderApplies(s, op.r);
    } else if s.ref.None? {
      EnqueueWithout(s, op.f, op.hasFuture, op.auto);
    } else if s.inside[s.ref.value] > 0 {
      EnqueueWhileReadReaders(s, op.f, op.hasFuture, op.auto);
    } else {
      EnqueueAtRestWanted(s, op.f, op.hasFuture, op.auto);
    }
  }

  lemma EnqueueWhileReadReaders<I>(s: State<I>, f: I -> I, hasFuture: bool, auto: I)
    requires Inv(s) && s.ref.Some? && s.inside[s.ref.value] > 0
    ensures Step(s, Enqueue(f, hasFuture, auto)).ref == s.ref && Step(s, Enqueue(f, hasFuture, auto)).inside == s.inside
  {
    assert RefOk(s, s.ref.value, {});
  }

  lemma EnqueueAtRestWanted<I>(s: State<I>, f: I -> I, hasFuture: bool, auto: I)
    requires Inv(s) && s.ref.Some? && s.inside[s.ref.value] == 0
    ensures var s' := Step(s, Enqueue(f, hasFuture, auto));
            s'.ref.Some? ==> s'.ref.value in s'.mem && !Unwanted(s, s'.mem[s'.ref.value].item)
  {
    var r := s.ref.value;
    RestingHasNoQueue(s, r);
    GetRefAtRest(s, r);
    if Unwanted(s, s.mem[r].item) {
      GetRefCases(s);
      var s1 := GetRef(s);
      EnqueueWithout(s1, f, hasFuture, auto);
      EnqueueFromGetRef(s, f, hasFuture, auto);
    } else {
      EnqueueAtRest(s, r, f, hasFuture, auto);
    }
  }

  lemma EnqueueFromGetRef<I>(s: State<I>, f: I -> I, hasFuture: bool, auto: I)
    requires Attached(s) && GetRef(s).ref.None?
    ensures Step(s, Enqueue(f, hasFuture, auto)) == Step(GetRef(s), Enqueue(f, hasFuture, auto))
  {
  }

  /** The item by whose look a step may let go of the attached ref. */
  ghost predicate Condemned<I>(s: State<I>, r: nat, op: Op<I>)
    requires r in s.mem
  {
    Unwanted(s, Eager(s.mem[r])) || (op.Enqueue? && Unwanted(s, op.f(Eager(s.mem[r]))))
  }

  /** Apart from a release, a step lets go of the attached ref only if that is unwanted with all its modifications. */
  lemma OnlyUnwantedGo<I>(s: State<I>, op: Op<I>, r: nat)
    requires Inv(s) && s.ref == Some(r) && !op.Release?
    ensures r in s.mem && (Step(s, op).ref == Some(r) || Condemned(s, r, op))
  {
    assert RefOk(s, r, {});
    match op
    case Assign(_) =>
    case AssignIfReleased(getItem, auto) =>
      if s.inside[r] == 0 && (getItem.Some? || s.autoAssign) { AssignIfReleasedFinds(s, r, getItem, auto); }
    case ReadBegin => if s.inside[r] == 0 { ReadFinds(s, r); }
    case ReadEnd(q) => OnlyUnwantedGoAtReadEnd(s, q, r);
    case Enqueue(f, hasFuture, auto) =>
      if s.inside[r] == 0 { EnqueueAtRest(s, r, f, hasFuture, auto); } else { EnqueueWhileRead(s, r, f, hasFuture, auto); }
  }

  lemma ReadEndElsewhere<I>(s: State<I>, q: nat)
    requires s.ref.Some? && Attached(s) && (s.ref != Some(q) || s.mem[q].readerCount > 1)
    requires q in s.mem ==> s.mem[q].readerCount < READER_RANGE
    ensures Step(s, ReadEnd(q)).ref == s.ref
  {
  }

  lemma OnlyUnwantedGoAtReadEnd<I>(s: State<I>, q: nat, r: nat)
    requires Inv(s) && s.ref == Some(r) && r in s.mem
    ensures Step(s, ReadEnd(q)).ref == Some(r) || Unwanted(s, Eager(s.mem[r]))
  {
    if s.inside[q] > 0 {
      assert RefOk(s, q, {});
      if q == r && s.inside[r] == 1 {
        LastReaderApplies(s, r);
      } else {
        ReadEndElsewhere(s, q);
      }
    }
  }

  ghost predicate NoneUnwanted<I(!new)>(s: State<I>) {
    forall item: I :: !Unwanted(s, item)
  }

  lemma StepNeverLetsGo<I(!new)>(s: State<I>, op: Op<I>, r: nat)
    requires Inv(s) && s.ref == Some(r) && NoneUnwanted(s) && !op.Release?
    ensures Step(s, op).ref == Some(r)
  {
    OnlyUnwantedGo(s, op, r);
  }

  /** Without a function, or with one that agrees to no item, only a release ever detaches the item. */
  lemma {:induction false} NeverLetGo<I(!new)>(s: State<I>, ops: seq<Op<I>>, r: nat)
    requires Inv(s) && AllAllowed(s, ops) && s.ref == Some(r) && NoneUnwanted(s)
    requires forall i :: 0 <= i < |ops| ==> !ops[i].Release?
    ensures Run(s, ops).ref == Some(r)
  {
    if ops == [] {
    } else {
      var n := |ops| - 1;
      AllowedPrefix(s, ops);
      NeverLetGo(s, ops[..n], r);
      RunKeepsInv(s, ops[..n]);
      RunKeepsFunction(s, ops[..n]);
      var m := Run(s, ops[..n]);
      assert NoneUnwanted(m) by {
        assert forall item: I :: Unwanted(m, item) ==> Unwanted(s, item);
      }
      StepNeverLetsGo(m, ops[n], r);
    }
  }

  lemma {:induction false} RunKeepsFunction<I>(s: State<I>, ops: seq<Op<I>>)
    requires Attached(s)
    ensures Run(s, ops).autoRelease == s.autoRelease && Run(s, ops).autoAssign == s.autoAssign
  {
    if ops == [] {
    } else {
      RunKeepsFunction(s, ops[..|ops| - 1]);
      StepKeepsFunction(Run(s, ops[..|ops| - 1]), ops[|ops| - 1]);
    }
  }

  ghost predicate SameFunction<I>(s: State<I>, s': State<I>) {
    s'.autoRelease == s.autoRelease && s'.autoAssign == s.autoAssign
  }

  lemma GetRefKeepsFunction<I>(s: State<I>)
    requires Attached(s)
    ensures SameFunction(s, GetRef(s))
  {
  }

  lemma ReadersKeepFunction<I>(s: State<I>, op: Op<I>)
    requires Attached(s) && (op.ReadBegin? || op.ReadEnd?)
    ensures SameFunction(s, Step(s, op))
  {
    GetRefKeepsFunction(s);
  }

  lemma ReleaseKeepsFunction<I>(s: State<I>, check: I -> bool)
    requires Attached(s)
    ensures SameFunction(s, DoRelease(s, check))
  {
    GetRefKeepsFunction(s);
  }

  lemma EnqueueKeepsFunction<I>(s: State<I>, f: I -> I, hasFuture: bool, auto: I)
    requires Attached(s)
    ensures SameFunction(s, DoEnqueue(s, f, hasFuture, auto))
  {
    GetRefKeepsFunction(s);
  }

  lemma StepKeepsFunction<I>(s: State<I>, op: Op<I>)
    requires Attached(s)
    ensures SameFunction(s, Step(s, op))
  {
    match op
    case Assign(_) =>
    case AssignIfReleased(_, _) => GetRefKeepsFunction(s);
    case Release(check) =>
      if check.Some? {
        ReleaseKeepsFunction(s, check.value);
      } else if s.autoRelease.Some? {
        ReleaseKeepsFunction(s, s.autoRelease.value);
      }
    case ReadBegin => ReadersKeepFunction(s, op);
    case ReadEnd(_) => ReadersKeepFunction(s, op);
    case Enqueue(f, hasFuture, auto) => EnqueueKeepsFunction(s, f, hasFuture, auto);
  }

  /** A modification is accepted on the attached item exactly unless that is unread and unwanted as it stands. */
  lemma AcceptedIff<I>(s: State<I>, r: nat, f: I -> I, hasFuture: bool, auto: I)
    requires Inv(s) && s.ref == Some(r)
    ensures var s' := Step(s, Enqueue(f, hasFuture, auto));
            && r in s.mem && |s'.calls| == |s.calls| + 1
            && (s'.calls[|s.calls|].target == Some(r) <==> s.inside[r] > 0 || !Unwanted(s, s.mem[r].item))
  {
    assert RefOk(s, r, {});
    if s.inside[r] == 0 {
      RestingHasNoQueue(s, r);
      EnqueueAtRest(s, r, f, hasFuture, auto);
    } else {
      EnqueueWhileRead(s, r, f, hasFuture, auto);
    }
  }
}
