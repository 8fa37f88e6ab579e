/**
 The wrapper in its own form: an object whose sections update the ref pointer, the
 reader counts, the queues and the callers' futures in place, with the loops that
 run and free a queue.  Each section is proved to take the state machine's step.

 Refs live in `heap`, futures in `futures`; a pointer is a key or None.  A call's
 context and its future are named by the number of the call.
 */
module WrapperObject {
  import opened Common
  import opened ThreadSafeWrapper
  import opened WrapperSafety

  datatype PendingInfo<!I> = PendingInfo(modificationFunc: I -> I, context: nat, future: Option<nat>)

  datatype ItemRef<!I> = ItemRef(wrappedItem: I, readerCount: nat, pending: seq<PendingInfo<I>>)

  /** The recorded fate of every call agrees with what was done to its context and future. */
  ghost predicate CallsAgree(calls: seq<Call>, futures: map<nat, Future>, ran: multiset<nat>, freed: multiset<nat>) {
    forall i: nat ::
      if i < |calls| then
        && ran[i] == calls[i].runs && freed[i] == calls[i].contextFreed
        && (i in futures <==> calls[i].future.Some?)
        && (i in futures ==> calls[i].future == Some(futures[i]))
      else ran[i] == 0 && freed[i] == 0 && i !in futures
  }

  ghost predicate InfosAgree<I>(infos: seq<PendingInfo<I>>, mods: seq<Mod<I>>, calls: seq<Call>) {
    && |infos| == |mods|
    && (forall k :: 0 <= k < |mods| ==>
          && mods[k] == Mod(infos[k].context, infos[k].modificationFunc)
          && mods[k].call < |calls|
          && infos[k].future == (if calls[mods[k].call].future.Some? then Some(mods[k].call) else None))
  }

  ghost predicate RefsAgree<I>(heap: map<nat, ItemRef<I>>, s: State<I>) {
    && heap.Keys == s.mem.Keys
    && (forall r :: r in heap ==>
          && heap[r].wrappedItem == s.mem[r].item && heap[r].readerCount == s.mem[r].readerCount
          && InfosAgree(heap[r].pending, s.mem[r].pending, s.calls))
  }

  // ---- a loop over a queue marks the calls it has passed ----

  ghost function Mark<I>(calls: seq<Call>, mods: seq<Mod<I>>, n: nat, mark: Call -> Call): seq<Call>
    requires n <= |mods|
  {
    seq(|calls|, i requires 0 <= i < |calls| => if Holds(mods[..n], i) then mark(calls[i]) else calls[i])
  }

  lemma MarkNext<I>(calls: seq<Call>, mods: seq<Mod<I>>, n: nat, mark: Call -> Call)
    requires n < |mods| && Increasing(mods) && mods[n].call < |calls|
    ensures Mark(calls, mods, n, mark)[mods[n].call] == calls[mods[n].call]
    ensures Mark(calls, mods, n + 1, mark) == Mark(calls, mods, n, mark)[mods[n].call := mark(calls[mods[n].call])]
  {
    assert forall k :: 0 <= k < n ==> mods[..n + 1][k] == mods[..n][k];
    assert mods[..n + 1][n] == mods[n];
    forall i | 0 <= i < |calls|
      ensures Holds(mods[..n + 1], i) <==> Holds(mods[..n], i) || i == mods[n].call
    {
      if Holds(mods[..n], i) {
        var k :| 0 <= k < n && mods[..n][k].call == i;
        assert mods[..n + 1][k].call == i;
      }
      if i == mods[n].call { assert mods[..n + 1][n].call == i; }
    }
  }

  function MarkRun(c: Call): Call {
    c.(runs := c.runs + 1, future := if c.future.Some? then Some(Future(true, true)) else None)
  }

  function MarkFreed(c: Call): Call {
    c.(contextFreed := c.contextFreed + 1)
  }

  function MarkDiscarded(c: Call): Call {
    Resolved(c, false)
  }

  lemma MarkAll<I>(calls: seq<Call>, mods: seq<Mod<I>>)
    ensures Mark(calls, mods, 0, MarkRun) == calls && Mark(calls, mods, 0, MarkDiscarded) == calls
    ensures Mark(calls, mods, |mods|, MarkDiscarded) == ResolveAll(calls, mods, false)
    ensures var ran := Mark(calls, mods, |mods|, MarkRun);
            Mark(ran, mods, 0, MarkFreed) == ran && Mark(ran, mods, |mods|, MarkFreed) == ResolveAll(calls, mods, true)
  {
    assert mods[..|mods|] == mods;
    assert Mark(Mark(calls, mods, |mods|, MarkRun), mods, |mods|, MarkFreed) == ResolveAll(calls, mods, true);
    assert Mark(calls, mods, |mods|, MarkDiscarded) == ResolveAll(calls, mods, false);
  }

  /** What the code relies on: its pointers are good and its queues are in call order. */
  ghost predicate Ordered<I>(s: State<I>) {
    && Attached(s)
    && (forall r :: r in s.mem ==> r < s.nextRef && Increasing(s.mem[r].pending))
  }

  /** What one turn of the loop that runs a queue finds and does. */
  lemma NextTurn<I>(infos: seq<PendingInfo<I>>, mods: seq<Mod<I>>, calls: seq<Call>, item: I, i: nat)
    requires InfosAgree(infos, mods, calls) && Increasing(mods) && i < |mods|
    ensures var marked := Mark(calls, mods, i, MarkRun);
            && infos[i].context < |marked|
            && infos[i].future == (if marked[infos[i].context].future.Some? then Some(infos[i].context) else None)
            && Mark(calls, mods, i + 1, MarkRun) == marked[infos[i].context := MarkRun(marked[infos[i].context])]
    ensures Fold(item, mods[..i + 1]) == infos[i].modificationFunc(Fold(item, mods[..i]))
  {
    MarkNext(calls, mods, i, MarkRun);
    assert mods[..i + 1][..i] == mods[..i];
  }

  /** Resolving calls never gives or takes away a future. */
  lemma AgreeAfterResolve<I>(heap: map<nat, ItemRef<I>>, s: State<I>, s': State<I>, mods: seq<Mod<I>>, applied: bool)
    requires heap.Keys == s'.mem.Keys && s'.calls == ResolveAll(s.calls, mods, applied)
    requires forall r :: r in heap ==>
               && heap[r].wrappedItem == s'.mem[r].item && heap[r].readerCount == s'.mem[r].readerCount
               && InfosAgree(heap[r].pending, s'.mem[r].pending, s.calls)
    ensures RefsAgree(heap, s')
  {
  }

  lemma AgreeAfterApply<I>(heap: map<nat, ItemRef<I>>, s: State<I>, r: nat)
    requires RefsAgree(heap, s) && r in heap && Ordered(s)
    ensures var s' := ThreadSafeWrapper.ApplyModifications(s, r);
            && RefsAgree(heap[r := heap[r].(wrappedItem := Fold(s.mem[r].item, s.mem[r].pending), pending := [])], s')
            && Ordered(s')
  {
    AgreeAfterResolve(heap[r := heap[r].(wrappedItem := Fold(s.mem[r].item, s.mem[r].pending), pending := [])],
                      s, ThreadSafeWrapper.ApplyModifications(s, r), s.mem[r].pending, true);
  }

  lemma AgreeAfterNewCall<I>(heap: map<nat, ItemRef<I>>, s: State<I>, call: Call, r: nat, ref: Ref<I>, conc: ItemRef<I>)
    requires RefsAgree(heap, s) && Attached(s) && s.ref == Some(r)
    requires conc.wrappedItem == ref.item && conc.readerCount == ref.readerCount
    requires InfosAgree(conc.pending, ref.pending, s.calls + [call])
    ensures RefsAgree(heap[r := conc], Record(s, call, ref))
  {
  }

  lemma AgreeAfterAttach<I>(heap: map<nat, ItemRef<I>>, s: State<I>, item: I)
    requires RefsAgree(heap, s) && Ordered(s)
    ensures RefsAgree(heap[s.nextRef := ItemRef(item, 0, [])], Attach(s, item)) && Ordered(Attach(s, item))
  {
  }

  lemma AgreeAfterRecount<I>(heap: map<nat, ItemRef<I>>, s: State<I>, r: nat, count: nat, inside: multiset<nat>)
    requires RefsAgree(heap, s) && r in heap && Ordered(s)
    ensures RefsAgree(heap[r := heap[r].(readerCount := count)], Recount(s, r, count, inside))
    ensures Ordered(Recount(s, r, count, inside))
  {
  }

  lemma CallsAgreeNew(calls: seq<Call>, futures: map<nat, Future>, ran: multiset<nat>, freed: multiset<nat>, call: Call)
    requires CallsAgree(calls, futures, ran, freed)
    ensures CallsAgree(calls + [call],
                       if call.future.Some? then futures[|calls| := call.future.value] else futures,
                       ran[|calls| := call.runs], freed[|calls| := call.contextFreed])
  {
  }

  lemma OrderedAfterNewCall<I>(s: State<I>, heap: map<nat, ItemRef<I>>, call: Call, ref: Ref<I>, m: Mod<I>)
    requires Ordered(s) && RefsAgree(heap, s) && s.ref.Some? && m.call == |s.calls|
    requires ref.pending == s.mem[s.ref.value].pending || ref.pending == s.mem[s.ref.value].pending + [m]
    ensures Ordered(Record(s, call, ref))
  {
    assert InfosAgree(heap[s.ref.value].pending, s.mem[s.ref.value].pending, s.calls);
  }

  lemma ReadBeginIsEnter<I>(s: State<I>)
    requires Ordered(s)
    ensures var s1 := GetRef(s);
            Step(s, Op<I>.ReadBegin) ==
              if s1.ref.None? then s1
              else Recount(s1, s1.ref.value, (s1.mem[s1.ref.value].readerCount + 1) % READER_RANGE,
                           s1.inside + multiset{s1.ref.value})
  {
  }

  lemma ReadEndIsLeave<I>(s: State<I>, r: nat, count: nat)
    requires Ordered(s) && r in s.mem && count == (s.mem[r].readerCount + READER_RANGE - 1) % READER_RANGE
    ensures Ordered(Recount(s, r, count, s.inside - multiset{r}))
    ensures var s1 := Recount(s, r, count, s.inside - multiset{r});
            DoReadEnd(s, r) == if count != 0 then s1 else LeaveLast(s1, r)
  {
  }

  /** There is an item once it is brought up to date, and the function agrees to its release. */
  ghost predicate Releases<I>(s: State<I>, check: I -> bool)
    requires Attached(s)
  {
    var s1 := ThreadSafeWrapper.GetRef(s);
    s1.ref.Some? && check(s1.mem[s1.ref.value].item)
  }

  class Wrapper<I> {
    const autoRelease: Option<I -> bool>
    const autoAssign: bool
    var ref: Option<nat>
    var heap: map<nat, ItemRef<I>>
    var futures: map<nat, Future>
    var nextRef: nat
    var nextCall: nat
    ghost var view: State<I>
    ghost var ran: multiset<nat>
    ghost var freed: multiset<nat>

    ghost predicate Agrees()
      reads this
    {
      && view.autoRelease == autoRelease && view.autoAssign == autoAssign && view.ref == ref
      && nextRef == view.nextRef && nextCall == |view.calls|
      && RefsAgree(heap, view) && CallsAgree(view.calls, futures, ran, freed)
    }

    /** Holds whenever the mutex is free. */
    ghost predicate Valid()
      reads this
    {
      Agrees() && Ordered(view)
    }

    constructor (autoRelease: Option<I -> bool>, autoAssign: bool)
      ensures Valid() && view == Init(autoRelease, autoAssign)
    {
      this.autoRelease, this.autoAssign := autoRelease, autoAssign;
      ref, heap, futures, nextRef, nextCall := None, map[], map[], 0, 0;
      view, ran, freed := Init(autoRelease, autoAssign), multiset{}, multiset{};
    }

    /** Completes the future, if the record still points to one, and forgets the pointer. */
    method SetFutureComplete(info: PendingInfo<I>, applied: bool) returns (info': PendingInfo<I>)
      requires info.future.Some? ==> info.future.value in futures
      modifies `futures
      ensures info' == info.(future := None)
      ensures futures == if info.future.Some? then old(futures)[info.future.value := Future(true, applied)] else old(futures)
    {
      info' := info.(future := None);
      if info.future.Some? {
        futures := futures[info.future.value := Future(true, applied)];
      }
    }

    method DestroyPendingModification(info: PendingInfo<I>)
      requires info.future.Some? ==> info.future.value in futures
      modifies `futures, `freed
      ensures futures == if info.future.Some? then old(futures)[info.future.value := Future(true, false)] else old(futures)
      ensures freed == old(freed) + multiset{info.context}
    {
      var _ := SetFutureComplete(info, false);
      freed := freed + multiset{info.context};
    }

    /** First loop of applyModifications: run the queue and complete its futures. */
    method RunQueue(infos: seq<PendingInfo<I>>, item: I, ghost mods: seq<Mod<I>>, ghost calls: seq<Call>)
      returns (item': I, infos': seq<PendingInfo<I>>)
      requires InfosAgree(infos, mods, calls) && Increasing(mods)
      requires CallsAgree(calls, futures, ran, freed)
      modifies `futures, `ran
      ensures item' == Fold(item, mods)
      ensures |infos'| == |infos|
      ensures forall k :: 0 <= k < |infos| ==> infos'[k] == infos[k].(future := None)
      ensures CallsAgree(Mark(calls, mods, |mods|, MarkRun), futures, ran, freed)
    {
      item', infos' := item, infos;
      var i := 0;
      MarkAll(calls, mods);
      while i < |infos|
        invariant 0 <= i <= |infos| && |infos'| == |infos|
        invariant item' == Fold(item, mods[..i])
        invariant forall k :: 0 <= k < i ==> infos'[k] == infos[k].(future := None)
        invariant forall k :: i <= k < |infos| ==> infos'[k] == infos[k]
        invariant CallsAgree(Mark(calls, mods, i, MarkRun), futures, ran, freed)
      {
        NextTurn(infos, mods, calls, item, i);
        var info: PendingInfo<I>;
        item', info := RunOne(infos'[i], item', Mark(calls, mods, i, MarkRun));
        infos' := infos'[i := info];
        i := i + 1;
      }
      assert mods[..|mods|] == mods;
    }

    /** One turn of that loop. */
    method RunOne(info: PendingInfo<I>, item: I, ghost calls: seq<Call>) returns (item': I, info': PendingInfo<I>)
      requires CallsAgree(calls, futures, ran, freed) && info.context < |calls|
      requires info.future == if calls[info.context].future.Some? then Some(info.context) else None
      modifies `futures, `ran
      ensures item' == info.modificationFunc(item) && info' == info.(future := None)
      ensures CallsAgree(calls[info.context := MarkRun(calls[info.context])], futures, ran, freed)
    {
      item' := info.modificationFunc(item);
      ran := ran + multiset{info.context};
      info' := SetFutureComplete(info, true);
    }

    /** linkedListDestroy with destroyPendingModificationFunc on records whose futures are forgotten. */
    method FreeApplied(infos: seq<PendingInfo<I>>, ghost mods: seq<Mod<I>>, ghost calls: seq<Call>)
      requires |infos| == |mods| && Increasing(mods)
      requires forall k :: 0 <= k < |mods| ==>
                 mods[k].call < |calls| && infos[k].context == mods[k].call && infos[k].future.None?
      requires CallsAgree(calls, futures, ran, freed)
      requires Mark(calls, mods, 0, MarkFreed) == calls
      modifies `futures, `freed
      ensures CallsAgree(Mark(calls, mods, |mods|, MarkFreed), futures, ran, freed)
    {
      for i := 0 to |infos|
        invariant CallsAgree(Mark(calls, mods, i, MarkFreed), futures, ran, freed)
      {
        MarkNext(calls, mods, i, MarkFreed);
        DestroyPendingModification(infos[i]);
      }
    }

    /** The same loop on records that were never applied. */
    method FreeDiscarded(infos: seq<PendingInfo<I>>, ghost mods: seq<Mod<I>>, ghost calls: seq<Call>)
      requires InfosAgree(infos, mods, calls) && Increasing(mods)
      requires CallsAgree(calls, futures, ran, freed)
      modifies `futures, `freed
      ensures CallsAgree(ResolveAll(calls, mods, false), futures, ran, freed)
    {
      MarkAll(calls, mods);
      for i := 0 to |infos|
        invariant CallsAgree(Mark(calls, mods, i, MarkDiscarded), futures, ran, freed)
      {
        MarkNext(calls, mods, i, MarkDiscarded);
        DestroyPendingModification(infos[i]);
      }
    }

    method ApplyModifications(r: nat)
      requires Valid() && r in heap
      modifies `heap, `futures, `view, `ran, `freed
      ensures Valid() && view == ThreadSafeWrapper.ApplyModifications(old(view), r)
    {
      ghost var s := view;
      if heap[r].pending != [] {
        var item := RunAndFree(heap[r].pending, heap[r].wrappedItem, s.mem[r].pending);
        AgreeAfterApply(heap, s, r);
        heap := heap[r := heap[r].(wrappedItem := item, pending := [])];
        view := ThreadSafeWrapper.ApplyModifications(s, r);
      } else {
        ApplyEmpty(s, r);
      }
    }

    /** Both loops of applyModifications. */
    method RunAndFree(infos: seq<PendingInfo<I>>, item: I, ghost mods: seq<Mod<I>>) returns (item': I)
      requires InfosAgree(infos, mods, view.calls) && Increasing(mods)
      requires CallsAgree(view.calls, futures, ran, freed)
      modifies `futures, `ran, `freed
      ensures item' == Fold(item, mods)
      ensures CallsAgree(ResolveAll(view.calls, mods, true), futures, ran, freed)
    {
      MarkAll(view.calls, mods);
      var infos';
      item', infos' := RunQueue(infos, item, mods, view.calls);
      FreeApplied(infos', mods, Mark(view.calls, mods, |mods|, MarkRun));
    }

    method DestroyRef(r: nat)
      requires Agrees() && r in heap && forall q :: q in view.mem ==> q < nextRef && Increasing(view.mem[q].pending)
      modifies `heap, `futures, `view, `freed
      ensures Agrees() && view == ThreadSafeWrapper.DestroyRef(old(view), r)
    {
      ghost var s := view;
      FreeDiscarded(heap[r].pending, s.mem[r].pending, s.calls);
      heap := heap - {r};
      view := ThreadSafeWrapper.DestroyRef(s, r);
      AgreeAfterResolve(heap, s, view, s.mem[r].pending, false);
    }

    method PostModificationCheckRelease(r: nat)
      requires Valid() && r in heap
      modifies `ref, `heap, `futures, `view, `freed
      ensures Valid() && view == ThreadSafeWrapper.PostModificationCheckRelease(old(view), r)
      ensures r !in heap <==> autoRelease.Some? && autoRelease.value(old(heap)[r].wrappedItem)
      ensures ref == if r !in heap && old(ref) == Some(r) then None else old(ref)
    {
      if autoRelease.Some? && autoRelease.value(heap[r].wrappedItem) {
        DestroyRef(r);
        if ref == Some(r) {
          ref := None;
          view := view.(ref := None);
        }
      }
    }

    method GetRef() returns (r: Option<nat>)
      requires Valid()
      modifies `ref, `heap, `futures, `view, `ran, `freed
      ensures Valid() && view == ThreadSafeWrapper.GetRef(old(view)) && r == ref
    {
      if ref.Some? && heap[ref.value].readerCount == 0 {
        ApplyModifications(ref.value);
        PostModificationCheckRelease(ref.value);
      }
      r := ref;
    }

    method CreateRef(item: I)
      requires Valid()
      modifies `ref, `heap, `nextRef, `view
      ensures Valid() && view == Attach(old(view), item)
    {
      AgreeAfterAttach(heap, view, item);
      heap, ref := heap[nextRef := ItemRef(item, 0, [])], Some(nextRef);
      nextRef := nextRef + 1;
      view := Attach(view, item);
    }

    /** threadSafeWrapperAssignItem */
    method AssignItem(item: I) returns (didAssign: bool)
      requires Valid()
      modifies `ref, `heap, `nextRef, `view
      ensures Valid() && view == Step(old(view), Assign(item)) && didAssign == old(ref).None?
    {
      didAssign := ref.None?;
      if didAssign {
        CreateRef(item);
      }
    }

    /** threadSafeWrapperAssignItemIfReleased */
    method AssignItemIfReleased(getItem: Option<I>, auto: I) returns (didAssign: bool)
      requires Valid()
      modifies this
      ensures Valid() && view == Step(old(view), AssignIfReleased(getItem, auto))
      ensures didAssign == (nextRef > old(nextRef))
    {
      didAssign := false;
      if getItem.Some? || autoAssign {
        var r := GetRef();
        if r.None? {
          CreateRef(if getItem.Some? then getItem.value else auto);
          didAssign := true;
        }
      }
    }

    /** threadSafeWrapperConditionalReleaseItem */
    method ConditionalReleaseItem(check: Option<I -> bool>) returns (released: bool)
      requires Valid()
      modifies this
      ensures Valid() && view == Step(old(view), Release(check))
      ensures released <==>
                || (check.Some? && Releases(old(view), check.value))
                || (check.None? && autoRelease.Some? && Releases(old(view), autoRelease.value))
      ensures released ==> ref.None?
    {
      released := false;
      if check.Some? {
        released := ReleaseIf(check.value);
      } else if autoRelease.Some? {
        released := ReleaseIf(autoRelease.value);
      }
    }

    method ReleaseIf(releaseCheck: I -> bool) returns (released: bool)
      requires Valid()
      modifies this
      ensures Valid() && view == DoRelease(old(view), releaseCheck)
      ensures released <==> Releases(old(view), releaseCheck)
      ensures released ==> ref.None?
    {
      released := false;
      var r := GetRef();
      if r.Some? && releaseCheck(heap[r.value].wrappedItem) {
        Detach(r.value);
        released := true;
      }
    }

    method Detach(r: nat)
      requires Valid() && ref == Some(r)
      modifies `ref, `heap, `futures, `view, `freed
      ensures Valid() && ref.None?
      ensures view == (if old(view).mem[r].readerCount == 0 then ThreadSafeWrapper.DestroyRef(old(view), r) else old(view)).(ref := None)
    {
      if heap[r].readerCount == 0 {
        DestroyRef(r);
      }
      ref := None;
      view := view.(ref := None);
    }

    method SetReaderCount(r: nat, count: nat, ghost inside: multiset<nat>)
      requires Valid() && r in heap
      modifies `heap, `view
      ensures Valid() && view == Recount(old(view), r, count, inside) && r in heap
    {
      AgreeAfterRecount(heap, view, r, count, inside);
      heap := heap[r := heap[r].(readerCount := count)];
      view := Recount(view, r, count, inside);
    }

    /** First section of threadSafeWrapperReadItem: the ref the callback reads, if any. */
    method ReadBegin() returns (r: Option<nat>)
      requires Valid()
      modifies this
      ensures Valid() && view == Step(old(view), Op<I>.ReadBegin) && r == ref
    {
      ReadBeginIsEnter(view);
      r := GetRef();
      if r.Some? {
        SetReaderCount(r.value, (heap[r.value].readerCount + 1) % READER_RANGE, view.inside + multiset{r.value});
      }
    }

    /** Second section of threadSafeWrapperReadItem, after the callback on ref `r`. */
    method ReadEnd(r: nat)
      requires Valid() && view.inside[r] > 0 && r in heap
      modifies this
      ensures Valid() && view == Step(old(view), Op<I>.ReadEnd(r))
    {
      var count := (heap[r].readerCount + READER_RANGE - 1) % READER_RANGE;
      ReadEndIsLeave(view, r, count);
      SetReaderCount(r, count, view.inside - multiset{r});
      if heap[r].readerCount == 0 {
        LastReaderLeft(r);
      }
    }

    method LastReaderLeft(r: nat)
      requires Valid() && r in heap
      modifies this
      ensures Valid()
      ensures view == LeaveLast(old(view), r)
    {
      if ref != Some(r) {
        DestroyRef(r);
      } else if heap[r].pending != [] {
        ApplyModifications(r);
        PostModificationCheckRelease(r);
      }
    }

    /** threadSafeWrapperEnqueueModification; `auto` is what autoAssignFunc would return. */
    method EnqueueModification(f: I -> I, hasFuture: bool, auto: I) returns (didEnqueue: bool)
      requires Valid()
      modifies this
      ensures Valid() && view == Step(old(view), Enqueue(f, hasFuture, auto))
      ensures didEnqueue == Settle(old(view), auto).ref.Some?
    {
      EnqueueIsSubmit(view, f, hasFuture, auto);
      var r := RefToModify(auto);
      didEnqueue := r.Some?;
      SubmitTo(r, f, hasFuture, auto);
    }

    /** The attached ref brought up to date, or a new one with the automatic item. */
    method RefToModify(auto: I) returns (r: Option<nat>)
      requires Valid()
      modifies this
      ensures Valid() && view == Settle(old(view), auto) && r == ref
    {
      r := GetRef();
      if r.None? && autoAssign {
        CreateRef(auto);
        r := ref;
      }
    }

    method SubmitTo(r: Option<nat>, f: I -> I, hasFuture: bool, auto: I)
      requires Valid() && r == ref
      modifies this
      ensures Valid()
      ensures view == Submit(old(view), f, if hasFuture then Some(Future(false, false)) else None, auto)
    {
      if r.None? {
        Reject(hasFuture, auto);
      } else if heap[r.value].readerCount == 0 {
        RunAtOnce(r.value, f, hasFuture);
        PostModificationCheckRelease(r.value);
      } else {
        Queue(r.value, f, hasFuture);
      }
    }

    /** Notes a new call; its future, if any, is the caller's. */
    method NewCall(ghost call: Call, future: Option<Future>)
      requires Agrees() && call.future == future
      modifies `futures, `nextCall, `view, `ran, `freed
      ensures nextCall == old(nextCall) + 1 && view == old(view).(calls := old(view).calls + [call])
      ensures CallsAgree(view.calls, futures, ran, freed)
    {
      CallsAgreeNew(view.calls, futures, ran, freed, call);
      if future.Some? {
        futures := futures[nextCall := future.value];
      }
      ran, freed := ran[nextCall := call.runs], freed[nextCall := call.contextFreed];
      nextCall := nextCall + 1;
      view := view.(calls := view.calls + [call]);
    }

    method Reject(hasFuture: bool, auto: I)
      requires Valid() && ref.None?
      modifies `futures, `nextCall, `view, `ran, `freed
      ensures Valid()
      ensures view == Record(old(view), Call(None, 0, 1, if hasFuture then Some(Future(false, false)) else None), NewRef(auto))
    {
      NewCall(Call(None, 0, 1, if hasFuture then Some(Future(false, false)) else None),
              if hasFuture then Some(Future(false, false)) else None);
    }

    method RunAtOnce(r: nat, f: I -> I, hasFuture: bool)
      requires Valid() && ref == Some(r)
      modifies `heap, `futures, `nextCall, `view, `ran, `freed
      ensures Valid()
      ensures var s := old(view);
              view == Record(s, Resolved(Call(s.ref, 0, 0, if hasFuture then Some(Future(false, false)) else None), true),
                             s.mem[r].(item := f(s.mem[r].item), enqueued := s.mem[r].enqueued + [Mod(|s.calls|, f)]))
    {
      ghost var s, m := view, Mod(nextCall, f);
      ghost var ref' := s.mem[r].(item := f(s.mem[r].item), enqueued := s.mem[r].enqueued + [m]);
      ghost var call := Resolved(Call(s.ref, 0, 0, if hasFuture then Some(Future(false, false)) else None), true);
      var conc := heap[r].(wrappedItem := f(heap[r].wrappedItem));
      AgreeAfterNewCall(heap, s, call, r, ref', conc);
      OrderedAfterNewCall(s, heap, call, ref', m);
      NewCall(call, if hasFuture then Some(Future(true, true)) else None);
      heap := heap[r := conc];
      view := Record(s, call, ref');
    }

    method Queue(r: nat, f: I -> I, hasFuture: bool)
      requires Valid() && ref == Some(r)
      modifies `heap, `futures, `nextCall, `view, `ran, `freed
      ensures Valid()
      ensures var s := old(view);
              var m := Mod(|s.calls|, f);
              view == Record(s, Call(s.ref, 0, 0, if hasFuture then Some(Future(false, false)) else None),
                             s.mem[r].(pending := s.mem[r].pending + [m], enqueued := s.mem[r].enqueued + [m]))
    {
      ghost var s, m := view, Mod(nextCall, f);
      ghost var ref' := s.mem[r].(pending := s.mem[r].pending + [m], enqueued := s.mem[r].enqueued + [m]);
      ghost var call := Call(s.ref, 0, 0, if hasFuture then Some(Future(false, false)) else None);
      var info := PendingInfo(f, nextCall, if hasFuture then Some(nextCall) else None);
      var conc := heap[r].(pending := heap[r].pending + [info]);
      AgreeAfterNewCall(heap, s, call, r, ref', conc);
      OrderedAfterNewCall(s, heap, call, ref', m);
      NewCall(call, if hasFuture then Some(Future(false, false)) else None);
      heap := heap[r := conc];
      view := Record(s, call, ref');
    }
  }
}
