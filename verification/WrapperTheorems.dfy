/**
 The promises of the thread-safe wrapper, for every sequence of steps that
 starts from an empty wrapper and keeps below 65536 readers of one item.
 */
module WrapperTheorems {
  import opened Common
  import opened ThreadSafeWrapper
  import opened WrapperSafety

  ghost predicate AllAllowed<I>(s: State<I>, ops: seq<Op<I>>)
    requires Attached(s)
  {
    forall k :: 0 <= k < |ops| ==> Allowed(Run(s, ops[..k]), ops[k])
  }

  ghost function From<I>(autoRelease: Option<I -> bool>, autoAssign: bool, ops: seq<Op<I>>): State<I> {
    Run(Init(autoRelease, autoAssign), ops)
  }

  lemma AllowedPrefix<I>(s: State<I>, ops: seq<Op<I>>)
    requires Attached(s) && ops != [] && AllAllowed(s, ops)
    ensures var n := |ops| - 1; AllAllowed(s, ops[..n]) && Allowed(Run(s, ops[..n]), ops[n])
  {
    var n := |ops| - 1;
    assert forall k :: 0 <= k < n ==> ops[..n][..k] == ops[..k];
  }

  lemma {:induction false} RunKeepsInv<I>(s: State<I>, ops: seq<Op<I>>)
    requires Inv(s) && AllAllowed(s, ops)
    ensures Inv(Run(s, ops))
  {
    if ops == [] {
    } else {
      var n := |ops| - 1;
      AllowedPrefix(s, ops);
      RunKeepsInv(s, ops[..n]);
      StepKeepsInv(Run(s, ops[..n]), ops[n]);
    }
  }

  lemma InitInv<I>(autoRelease: Option<I -> bool>, autoAssign: bool)
    ensures Inv(Init(autoRelease, autoAssign))
  {
  }

  /** Every reachable state satisfies the invariant, and so does every next step its guarantee. */
  lemma Reachable<I>(autoRelease: Option<I -> bool>, autoAssign: bool, ops: seq<Op<I>>, op: Op<I>)
    requires AllAllowed(Init(autoRelease, autoAssign), ops)
    ensures var s := From(autoRelease, autoAssign, ops);
            Inv(s) && Guarantee(s, op, Step(s, op))
  {
    InitInv(autoRelease, autoAssign);
    RunKeepsInv(Init(autoRelease, autoAssign), ops);
    StepGuarantee(From(autoRelease, autoAssign, ops), op);
  }

  /**
   Reclamation: a ref that is read exists; a ref that is neither attached nor read
   has been destroyed exactly once; an attached or read ref has not been destroyed.
   */
  lemma Reclamation<I>(autoRelease: Option<I -> bool>, autoAssign: bool, ops: seq<Op<I>>, r: nat)
    requires AllAllowed(Init(autoRelease, autoAssign), ops)
    ensures var s := From(autoRelease, autoAssign, ops);
            && s.destroyed[r] == Bit(r < s.nextRef && s.ref != Some(r) && s.inside[r] == 0)
            && (r in s.mem <==> s.ref == Some(r) || s.inside[r] > 0)
            && (s.ref == Some(r) && s.inside[r] == 0 ==> s.mem[r].pending == [])
  {
    InitInv(autoRelease, autoAssign);
    RunKeepsInv(Init(autoRelease, autoAssign), ops);
    var s := From(autoRelease, autoAssign, ops);
    if r in s.mem { assert RefOk(s, r, {}); }
  }

  /** A ref released while it is read is destroyed by the last of its readers to leave. */
  lemma LastReaderDestroys<I>(s: State<I>, r: nat)
    requires Inv(s) && s.ref != Some(r) && s.inside[r] > 0
    ensures var s' := Step(s, ReadEnd(r));
            (r !in s'.mem <==> s.inside[r] == 1) && s'.destroyed[r] == Bit(s.inside[r] == 1)
  {
    assert RefOk(s, r, {});
    ReadEndIsRecount(s, r);
  }

  /**
   Resolution: once the ref a call went to is not being read, the call has freed its
   context exactly once and run at most once, and its future is complete and says
   whether it ran; the future of a rejected call is untouched.
   */
  lemma Resolution<I>(autoRelease: Option<I -> bool>, autoAssign: bool, ops: seq<Op<I>>, i: nat)
    requires AllAllowed(Init(autoRelease, autoAssign), ops)
    requires i < |From(autoRelease, autoAssign, ops).calls|
    requires var s := From(autoRelease, autoAssign, ops);
             s.calls[i].target.Some? ==> s.inside[s.calls[i].target.value] == 0
    ensures var c := From(autoRelease, autoAssign, ops).calls[i];
            && c.contextFreed == 1 && c.runs <= 1
            && (c.future.Some? ==> c.future.value.complete == c.target.Some?)
            && (c.future.Some? && c.target.Some? ==> (c.future.value.applied <==> c.runs == 1))
            && (c.target.None? ==> c.runs == 0)
  {
    InitInv(autoRelease, autoAssign);
    RunKeepsInv(Init(autoRelease, autoAssign), ops);
    var s := From(autoRelease, autoAssign, ops);
    assert CallOk(s, i);
    var t := s.calls[i].target;
    if t.Some? && t.value in s.mem { assert RefOk(s, t.value, {}); }
  }

  /** What a caller has learned about a settled call stays true for the rest of the run. */
  lemma {:induction false} SettledForever<I>(s: State<I>, ops: seq<Op<I>>, i: nat)
    requires Inv(s) && AllAllowed(s, ops)
    requires i < |s.calls| && s.calls[i].contextFreed == 1
    ensures i < |Run(s, ops).calls| && Run(s, ops).calls[i] == s.calls[i]
  {
    if ops == [] {
    } else {
      var n := |ops| - 1;
      AllowedPrefix(s, ops);
      SettledForever(s, ops[..n], i);
      RunKeepsInv(s, ops[..n]);
      StepGuarantee(Run(s, ops[..n]), ops[n]);
    }
  }

  /**
   Deferred modification refines eager modification: what a ref holds is the result
   of a prefix of everything enqueued on it, and running its queue gives exactly the
   item a wrapper that never defers would hold.
   */
  lemma DeferredRefinesEager<I>(autoRelease: Option<I -> bool>, autoAssign: bool, ops: seq<Op<I>>, r: nat)
    requires AllAllowed(Init(autoRelease, autoAssign), ops)
    requires r in From(autoRelease, autoAssign, ops).mem
    ensures var ref := From(autoRelease, autoAssign, ops).mem[r];
            && 0 <= Applied(ref)
            && ref.item == Fold(ref.initial, ref.enqueued[..Applied(ref)])
            && Fold(ref.item, ref.pending) == Eager(ref)
  {
    InitInv(autoRelease, autoAssign);
    RunKeepsInv(Init(autoRelease, autoAssign), ops);
    assert RefOk(From(autoRelease, autoAssign, ops), r, {});
    ApplyKeepsHistory(From(autoRelease, autoAssign, ops).mem[r]);
  }

  /** A step changes the eager item of a surviving ref only by the modification it enqueues there. */
  lemma EagerStep<I>(s: State<I>, op: Op<I>, r: nat)
    requires Inv(s) && r in s.mem && r in Step(s, op).mem
    ensures || Eager(Step(s, op).mem[r]) == Eager(s.mem[r])
            || (op.Enqueue? && Eager(Step(s, op).mem[r]) == op.f(Eager(s.mem[r])))
  {
    StepGuarantee(s, op);
    var before, after := s.mem[r].enqueued, Step(s, op).mem[r].enqueued;
    if after != before {
      assert after[..|after| - 1] == before;
    }
  }

  // ---- the 16-bit reader counter ----

  /** Every ref with a reader inside still exists. */
  ghost predicate ReadersSafe<I>(s: State<I>) {
    forall r :: s.inside[r] > 0 ==> r in s.mem
  }

  /** No run of allowed steps destroys a ref under a reader. */
  ghost predicate SafeFrom<I(!new)>(s: State<I>)
    requires Attached(s)
  {
    forall ops :: AllAllowed(s, ops) ==> ReadersSafe(Run(s, ops))
  }

  lemma InvSafeFrom<I(!new)>(s: State<I>)
    requires Inv(s)
    ensures SafeFrom(s)
  {
    forall ops | AllAllowed(s, ops)
      ensures ReadersSafe(Run(s, ops))
    {
      RunKeepsInv(s, ops);
    }
  }

  /** A new reader is safe exactly when it stays within the counter: only then does no run that follows destroy a ref under a reader. */
  lemma ReaderLimit<I(!new)>(s: State<I>)
    requires Inv(s)
    ensures Allowed(s, ReadBegin) <==> SafeFrom(Step(s, ReadBegin))
  {
    if Allowed(s, ReadBegin) {
      ReadBeginKeepsInv(s);
      InvSafeFrom(Step(s, ReadBegin));
    } else {
      ReleasedUnderReaders(s);
      OneStepUnsafe(Step(s, ReadBegin), Release(Some((item: I) => true)), s.ref.value);
    }
  }

  lemma OneStepUnsafe<I(!new)>(s: State<I>, op: Op<I>, r: nat)
    requires Attached(s) && Allowed(s, op) && Step(s, op).inside[r] > 0 && r !in Step(s, op).mem
    ensures !SafeFrom(s)
  {
    assert [op][..0] == [];
    assert Run(s, []) == s;
    assert Run(s, [op]) == Step(s, op);
    assert AllAllowed(s, [op]);
  }

  /** With the counter full, one more reader and a release destroy the item under all its readers. */
  lemma ReleasedUnderReaders<I>(s: State<I>)
    requires Inv(s) && !Allowed(s, ReadBegin)
    ensures var s2 := Step(Step(s, ReadBegin), Release(Some((item: I) => true)));
            s2.inside[s.ref.value] == READER_RANGE && s.ref.value !in s2.mem
  {
    assert RefOk(s, s.ref.value, {});
    var s1 := Step(s, ReadBegin);
    assert s1.inside[s.ref.value] == READER_RANGE && s1.mem[s.ref.value].readerCount == 0 && s1.ref == s.ref;
    ReleaseUncounted(s1);
  }

  lemma ReleaseUncounted<I>(s: State<I>)
    requires s.ref.Some? && s.ref.value in s.mem && s.mem[s.ref.value].readerCount == 0
    ensures var s' := Step(s, Release(Some((item: I) => true)));
            s'.inside == s.inside && s.ref.value !in s'.mem
  {
  }

  function Reads<I>(n: nat): seq<Op<I>> {
    seq(n, _ => ReadBegin)
  }

  /** One item, `n` readers inside, nothing else ever happened. */
  function Crowded<I>(item: I, n: nat): State<I> {
    State(None, false, Some(0), map[0 := NewRef(item).(readerCount := n % READER_RANGE)], [],
          multiset{}[0 := n], multiset{}, 1)
  }

  lemma OneMoreReader<I>(item: I, n: nat)
    requires n < READER_RANGE
    ensures Step(Crowded(item, n), ReadBegin) == Crowded(item, n + 1)
  {
    var s := Crowded(item, n);
    ApplyEmpty(s, 0);
    assert GetRef(s) == s;
    assert multiset{}[0 := n] + multiset{0} == multiset{}[0 := n + 1];
    assert s.mem[0 := NewRef(item).(readerCount := (n + 1) % READER_RANGE)] == Crowded(item, n + 1).mem;
  }

  lemma {:induction false} ManyReaders<I>(item: I, n: nat)
    requires n <= READER_RANGE
    ensures From(None, false, [Assign(item)] + Reads(n)) == Crowded(item, n)
  {
    var ops := [Assign(item)] + Reads(n);
    if n == 0 {
      assert ops == [Assign(item)] && ops[..0] == [];
      assert Run(Init<I>(None, false), []) == Init(None, false);
      assert multiset{}[0 := 0] == multiset{};
    } else {
      assert ops[..|ops| - 1] == [Assign(item)] + Reads(n - 1);
      ManyReaders(item, n - 1);
      OneMoreReader(item, n - 1);
    }
  }

  /** With 65536 readers inside, releasing the item destroys it under all of them. */
  lemma TooManyReaders<I>(item: I)
    ensures var ops := [Assign(item)] + Reads(READER_RANGE) + [Release(Some(_ => true))];
            var s := From(None, false, ops);
            s.inside[0] == READER_RANGE && 0 !in s.mem && s.destroyed[0] == 1
  {
    var before := [Assign(item)] + Reads(READER_RANGE);
    var ops := before + [Release(Some(_ => true))];
    ManyReaders(item, READER_RANGE);
    assert ops[..|ops| - 1] == before;
    ApplyEmpty(Crowded(item, READER_RANGE), 0);
  }
}
