/**
  Call-branch collection in the transaction compiler: the list of call sequences gathered
  from a program, and what accepting a program on that list means for its executions.
 */
module CallBranches {
  import opened Base

  datatype CodeBlock =
    | Join(first: CodeBlock, second: CodeBlock)
    | Split(onTrue: CodeBlock, onFalse: CodeBlock)
    | Loop(body: CodeBlock)
    | Call(fnHash: Word, isSyscall: bool)
    | Span
    | Proxy
    | Dyn

  type Calls = seq<Word>
  type Branches = seq<Calls>

  // ---------- the traversal ----------

  /** The list of branches; all blocks of a program append to its last branch. */
  class BranchList {
    var branches: Branches

    /** The list starts with one empty branch. */
    constructor ()
      ensures branches == [[]]
    {
      branches := [[]];
    }

    method Collect(block: CodeBlock)
      requires branches != []
      modifies this
      ensures branches == Extend(old(branches), Branching(block)) && branches != []
      decreases block
    {
      ghost var before := branches;
      match block
      case Join(first, second) =>
        Collect(first);
        Collect(second);
        ExtendTwice(before, Branching(first), Branching(second));
      case Split(onTrue, onFalse) =>
        var currentLen := |branches[|branches| - 1]|;
        Collect(onFalse);
        var last := branches[|branches| - 1];
        ghost var onFalseBranches := Branching(onFalse);
        assert last == before[|before| - 1] + Last(onFalseBranches);
        if |last| > currentLen {
          assert last[..currentLen] == before[|before| - 1];
          branches := branches + [last[..currentLen]];
        }
        Collect(onTrue);
        ExtendSplit(before, onFalseBranches, Branching(onTrue));
      case Loop(body) =>
        Collect(body);
      case Call(fnHash, isSyscall) =>
        if !isSyscall {
          var n := |branches| - 1;
          branches := branches[n := branches[n] + [fnHash]];
        } else {
          ExtendByNothing(before);
        }
      case Span => ExtendByNothing(before);
      case Proxy => ExtendByNothing(before);
      case Dyn => ExtendByNothing(before);
    }
  }

  /** The branches of a program, collected from the empty branch. */
  method CollectCallBranches(block: CodeBlock) returns (branches: Branches)
    ensures branches == Branching(block)
  {
    var list := new BranchList();
    list.Collect(block);
    branches := list.branches;
    ghost var all := Branching(block);
    assert forall i | 0 <= i < |all| :: [] + all[i] == all[i];
    assert PrefixAll([], all) == all;
  }

  // ---------- a compositional reading of the traversal ----------

  function Last(bs: Branches): Calls
    requires bs != []
  {
    bs[|bs| - 1]
  }

  function Front(bs: Branches): Branches
    requires bs != []
  {
    bs[..|bs| - 1]
  }

  function PrefixAll(prefix: Calls, bs: Branches): (r: Branches)
    ensures |r| == |bs| && forall i | 0 <= i < |r| :: r[i] == prefix + bs[i]
  {
    seq(|bs|, i requires 0 <= i < |bs| => prefix + bs[i])
  }

  /** Going on from the last branch of `bs` with the branches `cs`. */
  function Extend(bs: Branches, cs: Branches): Branches
    requires bs != []
  {
    Front(bs) + PrefixAll(Last(bs), cs)
  }

  /** The branches of a block on its own. A false arm whose last branch is empty loses it. */
  function Branching(block: CodeBlock): (r: Branches)
    ensures r != []
  {
    match block
    case Join(first, second) => Extend(Branching(first), Branching(second))
    case Split(onTrue, onFalse) =>
      var fs := Branching(onFalse);
      if Last(fs) != [] then fs + Branching(onTrue) else Front(fs) + Branching(onTrue)
    case Loop(body) => Branching(body)
    case Call(fnHash, isSyscall) => if isSyscall then [[]] else [[fnHash]]
    case _ => [[]]
  }

  lemma ExtendByNothing(bs: Branches)
    requires bs != []
    ensures Extend(bs, [[]]) == bs
  {
    assert Last(bs) + [] == Last(bs);
  }

  lemma ExtendTwice(bs: Branches, cs: Branches, ds: Branches)
    requires bs != [] && cs != [] && ds != []
    ensures Extend(bs, cs) != []
    ensures Extend(Extend(bs, cs), ds) == Extend(bs, Extend(cs, ds))
  {
    var l := Last(bs);
    assert Last(Extend(bs, cs)) == l + Last(cs);
    assert forall i | 0 <= i < |ds| :: l + (Last(cs) + ds[i]) == (l + Last(cs)) + ds[i];
    assert PrefixAll(l, Extend(cs, ds)) == PrefixAll(l, Front(cs)) + PrefixAll(l + Last(cs), ds);
    assert Front(Extend(bs, cs)) == Front(bs) + PrefixAll(l, Front(cs));
  }

  lemma ExtendSplit(bs: Branches, fs: Branches, ts: Branches)
    requires bs != [] && fs != [] && ts != []
    ensures Extend(bs, fs) != []
    ensures Last(fs) != [] ==> Extend(Extend(bs, fs) + [Last(bs)], ts) == Extend(bs, fs + ts)
    ensures Last(fs) == [] ==> Extend(Extend(bs, fs), ts) == Extend(bs, Front(fs) + ts)
  {
    var l := Last(bs);
    var es := Extend(bs, fs);
    if Last(fs) != [] {
      assert Front(es + [l]) == es;
      assert PrefixAll(l, fs + ts) == PrefixAll(l, fs) + PrefixAll(l, ts);
    } else {
      assert Last(es) == l;
      assert PrefixAll(l, Front(fs) + ts) == PrefixAll(l, Front(fs)) + PrefixAll(l, ts);
      assert Front(es) == Front(bs) + PrefixAll(l, Front(fs));
    }
  }

  // ---------- executions ----------

  /**
    `calls` is the call sequence of an execution in which every reached loop body runs once.
    Proxied and dynamic blocks, like spans, count as making no calls.
   */
  ghost predicate OncePath(block: CodeBlock, calls: Calls)
    decreases block
  {
    match block
    case Join(first, second) =>
      exists i | 0 <= i <= |calls| :: OncePath(first, calls[..i]) && OncePath(second, calls[i..])
    case Split(onTrue, onFalse) => OncePath(onTrue, calls) || OncePath(onFalse, calls)
    case Loop(body) => OncePath(body, calls)
    case Call(fnHash, isSyscall) => calls == if isSyscall then [] else [fnHash]
    case _ => calls == []
  }

  /**
    `calls` is the call sequence of an execution in which loop bodies run any number of times;
    zero times only if `skip` is set.
   */
  ghost predicate Execution(block: CodeBlock, calls: Calls, skip: bool)
    decreases block, 1, 0
  {
    match block
    case Join(first, second) =>
      exists i | 0 <= i <= |calls| :: Execution(first, calls[..i], skip) && Execution(second, calls[i..], skip)
    case Split(onTrue, onFalse) => Execution(onTrue, calls, skip) || Execution(onFalse, calls, skip)
    case Loop(body) => (skip && calls == []) || exists n: nat :: Iterations(body, calls, skip, n)
    case Call(fnHash, isSyscall) => calls == if isSyscall then [] else [fnHash]
    case _ => calls == []
  }

  /** `n + 1` runs of a loop body, one after the other. */
  ghost predicate Iterations(body: CodeBlock, calls: Calls, skip: bool, n: nat)
    decreases body, 2, n
  {
    if n == 0 then Execution(body, calls, skip)
    else exists i | 0 <= i <= |calls| :: Execution(body, calls[..i], skip) && Iterations(body, calls[i..], skip, n - 1)
  }

  /** The path that takes the true arm everywhere. */
  function AllTrue(block: CodeBlock): Calls {
    match block
    case Join(first, second) => AllTrue(first) + AllTrue(second)
    case Split(onTrue, _) => AllTrue(onTrue)
    case Loop(body) => AllTrue(body)
    case Call(fnHash, isSyscall) => if isSyscall then [] else [fnHash]
    case _ => []
  }

  function Splits(block: CodeBlock): nat {
    match block
    case Join(first, second) => Splits(first) + Splits(second)
    case Split(onTrue, onFalse) => 1 + Splits(onTrue) + Splits(onFalse)
    case Loop(body) => Splits(body)
    case _ => 0
  }

  // ---------- the shape of the branches ----------

  lemma {:induction false} OncePathExists(block: CodeBlock)
    ensures OncePath(block, AllTrue(block))
  {
    match block
    case Join(first, second) =>
      OncePathExists(first);
      OncePathExists(second);
      JoinPath(first, AllTrue(first), second, AllTrue(second));
    case Split(onTrue, _) => OncePathExists(onTrue);
    case Loop(body) => OncePathExists(body);
    case _ =>
  }

  lemma JoinPath(first: CodeBlock, p: Calls, second: CodeBlock, q: Calls)
    requires OncePath(first, p) && OncePath(second, q)
    ensures OncePath(Join(first, second), p + q)
  {
    var calls, i := p + q, |p|;
    assert calls[..i] == p && calls[i..] == q;
  }

  /** The last branch is exactly the path that takes the true arm everywhere. */
  lemma {:induction false} LastIsAllTrue(block: CodeBlock)
    ensures Last(Branching(block)) == AllTrue(block)
  {
    match block
    case Join(first, second) =>
      LastIsAllTrue(first);
      LastIsAllTrue(second);
    case Split(onTrue, onFalse) =>
      LastIsAllTrue(onTrue);
    case Loop(body) => LastIsAllTrue(body);
    case _ =>
  }

  /** There is at most one branch more than there are splits. */
  lemma {:induction false} CountBound(block: CodeBlock)
    ensures |Branching(block)| <= 1 + Splits(block)
  {
    match block
    case Join(first, second) =>
      CountBound(first);
      CountBound(second);
    case Split(onTrue, onFalse) =>
      CountBound(onTrue);
      CountBound(onFalse);
    case Loop(body) => CountBound(body);
    case _ =>
  }

  /** Only the last branch can be empty. */
  lemma {:induction false} FrontIsNonEmpty(block: CodeBlock)
    ensures forall i | 0 <= i < |Branching(block)| - 1 :: Branching(block)[i] != []
  {
    match block
    case Join(first, second) =>
      FrontIsNonEmpty(first);
      FrontIsNonEmpty(second);
    case Split(onTrue, onFalse) =>
      FrontIsNonEmpty(onTrue);
      FrontIsNonEmpty(onFalse);
    case Loop(body) => FrontIsNonEmpty(body);
    case _ =>
  }

  ghost predicate PrefixOfPath(block: CodeBlock, calls: Calls) {
    exists path :: OncePath(block, path) && calls <= path
  }

  /** Each branch is a prefix of the call sequence of some once-unrolled path. */
  lemma {:induction false} BranchesArePrefixes(block: CodeBlock, i: nat)
    requires i < |Branching(block)|
    ensures PrefixOfPath(block, Branching(block)[i])
  {
    var b := Branching(block)[i];
    match block
    case Join(first, second) =>
      var n := |Branching(first)| - 1;
      if i < n {
        BranchesArePrefixes(first, i);
        var p :| OncePath(first, p) && b <= p;
        OncePathExists(second);
        JoinPath(first, p, second, AllTrue(second));
        assert b <= p + AllTrue(second);
      } else {
        BranchesArePrefixes(second, i - n);
        var q :| OncePath(second, q) && Branching(second)[i - n] <= q;
        LastIsAllTrue(first);
        OncePathExists(first);
        JoinPath(first, AllTrue(first), second, q);
        assert b <= AllTrue(first) + q;
      }
    case Split(onTrue, onFalse) =>
      var fs := Branching(onFalse);
      var n := if Last(fs) != [] then |fs| else |fs| - 1;
      if i < n {
        BranchesArePrefixes(onFalse, i);
        var p :| OncePath(onFalse, p) && b <= p;
        assert OncePath(block, p);
      } else {
        BranchesArePrefixes(onTrue, i - n);
        var p :| OncePath(onTrue, p) && b <= p;
        assert OncePath(block, p);
      }
    case Loop(body) =>
      BranchesArePrefixes(body, i);
      var p :| OncePath(body, p) && b <= p;
      assert OncePath(block, p);
    case _ =>
      assert OncePath(block, b);
  }

  // ---------- the compatibility check ----------

  predicate Within(calls: Calls, procs: seq<Word>) {
    forall i | 0 <= i < |calls| :: calls[i] in procs
  }

  predicate SomeWithin(bs: Branches, procs: seq<Word>) {
    exists i | 0 <= i < |bs| :: Within(bs[i], procs)
  }

  datatype ScriptType = NoteScript | TransactionScript

  datatype CompilerError =
    | NoteIncompatibleWithAccountInterface(program: Word)
    | TxScriptIncompatibleWithAccountInterface(program: Word)

  /** The check succeeds if some collected branch calls only procedures of the interface. */
  method VerifyCompatibility(block: CodeBlock, hash: Word, procs: seq<Word>, scriptType: ScriptType)
    returns (r: Result<(), CompilerError>)
    ensures r.Ok? <==> Accepts(block, procs)
    ensures r.Err? ==> r.error == if scriptType.NoteScript? then NoteIncompatibleWithAccountInterface(hash)
                                  else TxScriptIncompatibleWithAccountInterface(hash)
  {
    var branches := CollectCallBranches(block);
    if !SomeWithin(branches, procs) {
      match scriptType
      case NoteScript => return Err(NoteIncompatibleWithAccountInterface(hash));
      case TransactionScript => return Err(TxScriptIncompatibleWithAccountInterface(hash));
    }
    return Ok(());
  }

  predicate Accepts(block: CodeBlock, procs: seq<Word>) {
    SomeWithin(Branching(block), procs)
  }

  lemma WithinConcat(p: Calls, q: Calls, procs: seq<Word>)
    ensures Within(p + q, procs) <==> Within(p, procs) && Within(q, procs)
  {
    assert forall i | 0 <= i < |p| :: (p + q)[i] == p[i];
    assert forall i | 0 <= i < |q| :: (p + q)[|p| + i] == q[i];
  }

  lemma PrefixAllWithin(prefix: Calls, bs: Branches, procs: seq<Word>)
    ensures SomeWithin(PrefixAll(prefix, bs), procs) <==> Within(prefix, procs) && SomeWithin(bs, procs)
  {
    var es := PrefixAll(prefix, bs);
    forall i | 0 <= i < |bs| ensures Within(es[i], procs) <==> Within(prefix, procs) && Within(bs[i], procs) {
      WithinConcat(prefix, bs[i], procs);
    }
  }

  lemma AcceptsJoin(first: CodeBlock, second: CodeBlock, procs: seq<Word>)
    ensures Accepts(Join(first, second), procs) <==>
            SomeWithin(Front(Branching(first)), procs) || (Within(AllTrue(first), procs) && Accepts(second, procs))
  {
    LastIsAllTrue(first);
    var bs, cs := Branching(first), Branching(second);
    SomeWithinConcat(Front(bs), PrefixAll(Last(bs), cs), procs);
    PrefixAllWithin(Last(bs), cs, procs);
  }

  lemma SomeWithinConcat(bs: Branches, cs: Branches, procs: seq<Word>)
    ensures SomeWithin(bs + cs, procs) <==> SomeWithin(bs, procs) || SomeWithin(cs, procs)
  {
    var es := bs + cs;
    if SomeWithin(cs, procs) {
      var i :| 0 <= i < |cs| && Within(cs[i], procs);
      assert Within(es[|bs| + i], procs);
    }
    if SomeWithin(bs, procs) {
      var i :| 0 <= i < |bs| && Within(bs[i], procs);
      assert Within(es[i], procs);
    }
  }

  lemma FrontAndLast(bs: Branches, procs: seq<Word>)
    requires bs != []
    ensures SomeWithin(bs, procs) <==> SomeWithin(Front(bs), procs) || Within(Last(bs), procs)
  {
    assert bs == Front(bs) + [Last(bs)];
    SomeWithinConcat(Front(bs), [Last(bs)], procs);
    assert SomeWithin([Last(bs)], procs) <==> Within([Last(bs)][0], procs);
  }

  lemma AcceptsSplit(onTrue: CodeBlock, onFalse: CodeBlock, procs: seq<Word>)
    ensures Accepts(Split(onTrue, onFalse), procs) <==>
            || Accepts(onTrue, procs)
            || SomeWithin(Front(Branching(onFalse)), procs)
            || (AllTrue(onFalse) != [] && Within(AllTrue(onFalse), procs))
  {
    LastIsAllTrue(onFalse);
    var fs, ts := Branching(onFalse), Branching(onTrue);
    SomeWithinConcat(fs, ts, procs);
    SomeWithinConcat(Front(fs), ts, procs);
    FrontAndLast(fs, procs);
  }

  // ---------- completeness ----------

  /**
    No branch gets lost for good: where a false arm can be passed without a call by taking
    the true arms in it, so can the true arm, and, if loops may be skipped, their bodies.
   */
  predicate KeepsSilentPaths(block: CodeBlock, skip: bool) {
    match block
    case Join(first, second) => KeepsSilentPaths(first, skip) && KeepsSilentPaths(second, skip)
    case Split(onTrue, onFalse) =>
      && KeepsSilentPaths(onTrue, skip) && KeepsSilentPaths(onFalse, skip)
      && (AllTrue(onFalse) == [] ==> AllTrue(onTrue) == [])
    case Loop(body) => KeepsSilentPaths(body, skip) && (skip ==> AllTrue(body) == [])
    case _ => true
  }

  lemma SilentIsAccepted(block: CodeBlock, procs: seq<Word>)
    requires Within(AllTrue(block), procs)
    ensures Accepts(block, procs)
  {
    LastIsAllTrue(block);
    FrontAndLast(Branching(block), procs);
  }

  lemma FirstIteration(body: CodeBlock, calls: Calls, skip: bool, n: nat) returns (i: nat)
    requires Iterations(body, calls, skip, n)
    ensures i <= |calls| && Execution(body, calls[..i], skip)
  {
    if n == 0 {
      i := |calls|;
      assert calls[..i] == calls;
    } else {
      i :| 0 <= i <= |calls| && Execution(body, calls[..i], skip) && Iterations(body, calls[i..], skip, n - 1);
    }
  }

  /**
    Completeness: if no silent path is lost, then whenever some execution calls only
    procedures of the interface, the check accepts.
   */
  lemma {:induction false} Completeness(block: CodeBlock, calls: Calls, procs: seq<Word>, skip: bool)
    requires KeepsSilentPaths(block, skip) && Execution(block, calls, skip) && Within(calls, procs)
    ensures Accepts(block, procs)
    decreases block
  {
    match block
    case Join(first, second) =>
      var i :| 0 <= i <= |calls| && Execution(first, calls[..i], skip) && Execution(second, calls[i..], skip);
      Completeness(first, calls[..i], procs, skip);
      Completeness(second, calls[i..], procs, skip);
      AcceptsJoin(first, second, procs);
      LastIsAllTrue(first);
      FrontAndLast(Branching(first), procs);
    case Split(onTrue, onFalse) =>
      AcceptsSplit(onTrue, onFalse, procs);
      if Execution(onTrue, calls, skip) {
        Completeness(onTrue, calls, procs, skip);
      } else {
        Completeness(onFalse, calls, procs, skip);
        LastIsAllTrue(onFalse);
        FrontAndLast(Branching(onFalse), procs);
        if AllTrue(onFalse) == [] {
          SilentIsAccepted(onTrue, procs);
        }
      }
    case Loop(body) =>
      if skip && calls == [] {
        SilentIsAccepted(body, procs);
      } else {
        var n: nat :| Iterations(body, calls, skip, n);
        var i := FirstIteration(body, calls, skip, n);
        Completeness(body, calls[..i], procs, skip);
      }
    case _ =>
      assert Within(Branching(block)[0], procs);
  }

  /** Every once-unrolled path is an execution. */
  lemma {:induction false} OncePathIsExecution(block: CodeBlock, calls: Calls, skip: bool)
    requires OncePath(block, calls)
    ensures Execution(block, calls, skip)
    decreases block
  {
    match block
    case Join(first, second) =>
      var i :| 0 <= i <= |calls| && OncePath(first, calls[..i]) && OncePath(second, calls[i..]);
      OncePathIsExecution(first, calls[..i], skip);
      OncePathIsExecution(second, calls[i..], skip);
    case Split(onTrue, onFalse) =>
      if OncePath(onTrue, calls) {
        OncePathIsExecution(onTrue, calls, skip);
      } else {
        OncePathIsExecution(onFalse, calls, skip);
      }
    case Loop(body) =>
      OncePathIsExecution(body, calls, skip);
      assert Iterations(body, calls, skip, 0);
    case _ =>
  }

  /** A block whose compatible executions are never missed, whatever the interface. */
  ghost predicate Complete(block: CodeBlock, skip: bool) {
    forall calls, procs :: Execution(block, calls, skip) && Within(calls, procs) ==> Accepts(block, procs)
  }

  /**
    Between complete arms a split is complete if and only if its false arm is not silent or its
    true arm is silent too.
   */
  lemma SplitCompleteExactly(onTrue: CodeBlock, onFalse: CodeBlock, skip: bool)
    requires Complete(onTrue, skip) && Complete(onFalse, skip)
    ensures Complete(Split(onTrue, onFalse), skip) <==> (AllTrue(onFalse) == [] ==> AllTrue(onTrue) == [])
  {
    var block := Split(onTrue, onFalse);
    if AllTrue(onFalse) == [] ==> AllTrue(onTrue) == [] {
      forall calls, procs | Execution(block, calls, skip) && Within(calls, procs) ensures Accepts(block, procs) {
        AcceptsSplit(onTrue, onFalse, procs);
        if Accepts(onFalse, procs) {
          LastIsAllTrue(onFalse);
          FrontAndLast(Branching(onFalse), procs);
          if AllTrue(onFalse) == [] {
            SilentIsAccepted(onTrue, procs);
          }
        }
      }
    } else {
      OncePathExists(onFalse);
      OncePathIsExecution(onFalse, [], skip);
      assert Execution(block, [], skip) && Within([], []);
      OnlySilentBranch(block);
    }
  }

  lemma FirstRun(body: CodeBlock, calls: Calls, skip: bool) returns (i: nat)
    requires Execution(Loop(body), calls, skip) && !(skip && calls == [])
    ensures i <= |calls| && Execution(body, calls[..i], skip)
  {
    var n: nat :| Iterations(body, calls, skip, n);
    i := FirstIteration(body, calls, skip, n);
  }

  /** A loop is complete if and only if its body is and, where it may be skipped, is silent. */
  lemma LoopCompleteExactly(body: CodeBlock, skip: bool)
    ensures Complete(Loop(body), skip) <==> Complete(body, skip) && (skip ==> AllTrue(body) == [])
  {
    var block := Loop(body);
    if Complete(block, skip) {
      forall calls, procs | Execution(body, calls, skip) && Within(calls, procs) ensures Accepts(body, procs) {
        assert Iterations(body, calls, skip, 0);
        assert Accepts(block, procs);
      }
      if skip {
        assert Execution(block, [], skip) && Within([], []);
        OnlySilentBranch(block);
      }
    }
    if Complete(body, skip) && (skip ==> AllTrue(body) == []) {
      forall calls, procs | Execution(block, calls, skip) && Within(calls, procs) ensures Accepts(block, procs) {
        if skip && calls == [] {
          SilentIsAccepted(body, procs);
        } else {
          var i := FirstRun(body, calls, skip);
          assert Within(calls[..i], procs);
        }
        assert Accepts(body, procs);
      }
    }
  }

  /** Against an empty interface only the all-true path can be accepted. */
  lemma OnlySilentBranch(block: CodeBlock)
    ensures Accepts(block, []) <==> AllTrue(block) == []
  {
    FrontIsNonEmpty(block);
    LastIsAllTrue(block);
    var bs := Branching(block);
    FrontAndLast(bs, []);
    forall calls: Calls ensures Within(calls, []) <==> calls == [] {
      if calls != [] {
        assert calls[0] !in [];
      }
    }
  }

  // ---------- exactness ----------

  predicate MakesNoCalls(block: CodeBlock) {
    match block
    case Join(first, second) => MakesNoCalls(first) && MakesNoCalls(second)
    case Split(onTrue, onFalse) => MakesNoCalls(onTrue) && MakesNoCalls(onFalse)
    case Loop(body) => MakesNoCalls(body)
    case Call(_, isSyscall) => isSyscall
    case _ => true
  }

  /** In every join, the first part pushed no branch or the second part makes no calls. */
  predicate BranchesLast(block: CodeBlock) {
    match block
    case Join(first, second) =>
      && BranchesLast(first) && BranchesLast(second)
      && (|Branching(first)| == 1 || MakesNoCalls(second))
    case Split(onTrue, onFalse) => BranchesLast(onTrue) && BranchesLast(onFalse)
    case Loop(body) => BranchesLast(body)
    case _ => true
  }

  lemma {:induction false} NoCallsNoBranches(block: CodeBlock)
    requires MakesNoCalls(block)
    ensures Branching(block) == [[]] && AllTrue(block) == []
  {
    match block
    case Join(first, second) =>
      NoCallsNoBranches(first);
      NoCallsNoBranches(second);
      assert Extend([[]], [[]]) == [[]];
    case Split(onTrue, onFalse) =>
      NoCallsNoBranches(onTrue);
      NoCallsNoBranches(onFalse);
    case Loop(body) => NoCallsNoBranches(body);
    case _ =>
  }

  /** In such programs every branch is the call sequence of a once-unrolled path. */
  lemma {:induction false} BranchesArePaths(block: CodeBlock, i: nat)
    requires BranchesLast(block) && i < |Branching(block)|
    ensures OncePath(block, Branching(block)[i])
  {
    match block
    case Join(first, second) =>
      LastIsAllTrue(first);
      if MakesNoCalls(second) {
        NoCallsNoBranches(second);
        BranchesArePaths(first, i);
        OncePathExists(second);
        var b := Branching(first)[i];
        assert Branching(block)[i] == b + [];
        JoinPath(first, b, second, []);
      } else {
        BranchesArePaths(second, i);
        OncePathExists(first);
        JoinPath(first, AllTrue(first), second, Branching(second)[i]);
      }
    case Split(onTrue, onFalse) =>
      var fs := Branching(onFalse);
      var n := if Last(fs) != [] then |fs| else |fs| - 1;
      if i < n {
        BranchesArePaths(onFalse, i);
      } else {
        BranchesArePaths(onTrue, i - n);
      }
    case Loop(body) => BranchesArePaths(body, i);
    case _ =>
  }

  /**
    Exactness: for programs that branch last, acceptance means that some once-unrolled path
    calls only procedures of the interface; if no silent path is lost, it means exactly that.
   */
  lemma Exactness(block: CodeBlock, procs: seq<Word>)
    requires BranchesLast(block)
    ensures Accepts(block, procs) ==> exists calls :: OncePath(block, calls) && Within(calls, procs)
    ensures KeepsSilentPaths(block, false) ==>
              (Accepts(block, procs) <==> exists calls :: OncePath(block, calls) && Within(calls, procs))
  {
    if Accepts(block, procs) {
      var i :| 0 <= i < |Branching(block)| && Within(Branching(block)[i], procs);
      BranchesArePaths(block, i);
    }
    if KeepsSilentPaths(block, false) && exists calls :: OncePath(block, calls) && Within(calls, procs) {
      var calls :| OncePath(block, calls) && Within(calls, procs);
      OncePathIsExecution(block, calls, false);
      Completeness(block, calls, procs, false);
    }
  }
}
