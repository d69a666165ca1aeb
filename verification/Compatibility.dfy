/**
  When the compiler's compatibility check is right. The check looks at collected branches; what
  it stands for is that some execution of the program stays within the account's interface.
 */
module Compatibility {
  import opened Base
  import opened CallBranches

  // ---------- executions that stay within an interface ----------

  /** Some execution calls only procedures of the interface; loops may be skipped if `skip` is set. */
  predicate CanStay(block: CodeBlock, procs: seq<Word>, skip: bool) {
    match block
    case Join(first, second) => CanStay(first, procs, skip) && CanStay(second, procs, skip)
    case Split(onTrue, onFalse) => CanStay(onTrue, procs, skip) || CanStay(onFalse, procs, skip)
    case Loop(body) => skip || CanStay(body, procs, skip)
    case Call(fnHash, isSyscall) => isSyscall || fnHash in procs
    case _ => true
  }

  /** The call sequences with every loop body run once or, if `skip` is set, at most once. */
  function Paths(block: CodeBlock, skip: bool): set<Calls> {
    match block
    case Join(first, second) => set p, q | p in Paths(first, skip) && q in Paths(second, skip) :: p + q
    case Split(onTrue, onFalse) => Paths(onTrue, skip) + Paths(onFalse, skip)
    case Loop(body) => Paths(body, skip) + if skip then {[]} else {}
    case Call(fnHash, isSyscall) => {if isSyscall then [] else [fnHash]}
    case _ => {[]}
  }

  /** Without skipping, these are exactly the once-unrolled paths. */
  lemma {:induction false} PathsAreOncePaths(block: CodeBlock, calls: Calls)
    ensures calls in Paths(block, false) <==> OncePath(block, calls)
  {
    match block
    case Join(first, second) =>
      if calls in Paths(block, false) {
        var p, q :| p in Paths(first, false) && q in Paths(second, false) && calls == p + q;
        PathsAreOncePaths(first, p);
        PathsAreOncePaths(second, q);
        JoinPath(first, p, second, q);
      }
      if OncePath(block, calls) {
        var i :| 0 <= i <= |calls| && OncePath(first, calls[..i]) && OncePath(second, calls[i..]);
        PathsAreOncePaths(first, calls[..i]);
        PathsAreOncePaths(second, calls[i..]);
        assert calls == calls[..i] + calls[i..];
      }
    case Split(onTrue, onFalse) =>
      PathsAreOncePaths(onTrue, calls);
      PathsAreOncePaths(onFalse, calls);
    case Loop(body) => PathsAreOncePaths(body, calls);
    case _ =>
  }

  lemma JoinExecution(first: CodeBlock, p: Calls, second: CodeBlock, q: Calls, skip: bool)
    requires Execution(first, p, skip) && Execution(second, q, skip)
    ensures Execution(Join(first, second), p + q, skip)
  {
    var calls, i := p + q, |p|;
    assert calls[..i] == p && calls[i..] == q;
  }

  lemma {:induction false} PathsAreExecutions(block: CodeBlock, calls: Calls, skip: bool)
    requires calls in Paths(block, skip)
    ensures Execution(block, calls, skip)
  {
    match block
    case Join(first, second) =>
      var p, q :| p in Paths(first, skip) && q in Paths(second, skip) && calls == p + q;
      PathsAreExecutions(first, p, skip);
      PathsAreExecutions(second, q, skip);
      JoinExecution(first, p, second, q, skip);
    case Split(onTrue, onFalse) =>
      if calls in Paths(onTrue, skip) {
        PathsAreExecutions(onTrue, calls, skip);
      } else {
        PathsAreExecutions(onFalse, calls, skip);
      }
    case Loop(body) =>
      if calls in Paths(body, skip) {
        PathsAreExecutions(body, calls, skip);
        assert Iterations(body, calls, skip, 0);
      }
    case _ =>
  }

  /** An execution that stays within the interface shows, part by part, that one can. */
  lemma {:induction false} ExecutionStays(block: CodeBlock, calls: Calls, procs: seq<Word>, skip: bool)
    requires Execution(block, calls, skip) && Within(calls, procs)
    ensures CanStay(block, procs, skip)
    decreases block
  {
    match block
    case Join(first, second) =>
      var i :| 0 <= i <= |calls| && Execution(first, calls[..i], skip) && Execution(second, calls[i..], skip);
      assert Within(calls[..i], procs) && Within(calls[i..], procs);
      ExecutionStays(first, calls[..i], procs, skip);
      ExecutionStays(second, calls[i..], procs, skip);
    case Split(onTrue, onFalse) =>
      if Execution(onTrue, calls, skip) {
        ExecutionStays(onTrue, calls, procs, skip);
      } else {
        ExecutionStays(onFalse, calls, procs, skip);
      }
    case Loop(body) =>
      if !skip {
        var n: nat :| Iterations(body, calls, skip, n);
        var i := FirstIteration(body, calls, skip, n);
        ExecutionStays(body, calls[..i], procs, skip);
      }
    case Call(fnHash, isSyscall) =>
      assert !isSyscall ==> calls[0] == fnHash;
    case _ =>
  }

  lemma {:induction false} StayingPath(block: CodeBlock, procs: seq<Word>, skip: bool) returns (p: Calls)
    requires CanStay(block, procs, skip)
    ensures p in Paths(block, skip) && Within(p, procs)
  {
    match block
    case Join(first, second) =>
      var a := StayingPath(first, procs, skip);
      var b := StayingPath(second, procs, skip);
      p := a + b;
      WithinConcat(a, b, procs);
    case Split(onTrue, onFalse) =>
      if CanStay(onTrue, procs, skip) {
        p := StayingPath(onTrue, procs, skip);
      } else {
        p := StayingPath(onFalse, procs, skip);
      }
    case Loop(body) =>
      if skip {
        p := [];
      } else {
        p := StayingPath(body, procs, skip);
      }
    case Call(fnHash, isSyscall) => p := if isSyscall then [] else [fnHash];
    case _ => p := [];
  }

  /** Staying is possible exactly if some execution stays, with loops run any number of times. */
  lemma CanStayExact(block: CodeBlock, procs: seq<Word>, skip: bool)
    ensures CanStay(block, procs, skip) <==> exists calls :: Execution(block, calls, skip) && Within(calls, procs)
  {
    if CanStay(block, procs, skip) {
      var p := StayingPath(block, procs, skip);
      PathsAreExecutions(block, p, skip);
    }
    if calls :| Execution(block, calls, skip) && Within(calls, procs) {
      ExecutionStays(block, calls, procs, skip);
    }
  }

  /** The same over once-unrolled paths. */
  lemma CanStayOnce(block: CodeBlock, procs: seq<Word>)
    ensures CanStay(block, procs, false) <==> exists calls :: OncePath(block, calls) && Within(calls, procs)
  {
    if CanStay(block, procs, false) {
      var p := StayingPath(block, procs, false);
      PathsAreOncePaths(block, p);
    }
    if calls :| OncePath(block, calls) && Within(calls, procs) {
      OncePathIsExecution(block, calls, false);
      ExecutionStays(block, calls, procs, false);
    }
  }

  lemma {:induction false} LargerInterface(block: CodeBlock, procs: seq<Word>, more: seq<Word>, skip: bool)
    requires CanStay(block, procs, skip) && Within(procs, more)
    ensures CanStay(block, more, skip)
  {
    match block
    case Join(first, second) =>
      LargerInterface(first, procs, more, skip);
      LargerInterface(second, procs, more, skip);
    case Split(onTrue, onFalse) =>
      if CanStay(onTrue, procs, skip) {
        LargerInterface(onTrue, procs, more, skip);
      } else {
        LargerInterface(onFalse, procs, more, skip);
      }
    case Loop(body) =>
      if !skip {
        LargerInterface(body, procs, more, skip);
      }
    case _ =>
  }

  // ---------- the check accepts only compatible programs ----------

  /** Whatever the interface, an accepted program has an execution within it. */
  ghost predicate Sound(block: CodeBlock, skip: bool) {
    forall procs :: Accepts(block, procs) ==>
      exists calls :: Execution(block, calls, skip) && Within(calls, procs)
  }

  /** Each collected branch, taken as an interface, leaves the program an execution. */
  predicate BranchesSuffice(block: CodeBlock, skip: bool) {
    forall i | 0 <= i < |Branching(block)| :: CanStay(block, Branching(block)[i], skip)
  }

  lemma OwnBranch(block: CodeBlock, i: nat)
    requires i < |Branching(block)|
    ensures Accepts(block, Branching(block)[i])
  {
    assert Within(Branching(block)[i], Branching(block)[i]);
  }

  /**
    For every program: the check accepts only compatible interfaces if and only if each of the
    finitely many collected branches suffices as an interface.
   */
  lemma SoundExactly(block: CodeBlock, skip: bool)
    ensures Sound(block, skip) <==> BranchesSuffice(block, skip)
  {
    if Sound(block, skip) {
      forall i | 0 <= i < |Branching(block)| ensures CanStay(block, Branching(block)[i], skip) {
        OwnBranch(block, i);
        CanStayExact(block, Branching(block)[i], skip);
      }
    }
    if BranchesSuffice(block, skip) {
      forall procs | Accepts(block, procs)
        ensures exists calls :: Execution(block, calls, skip) && Within(calls, procs)
      {
        var i :| 0 <= i < |Branching(block)| && Within(Branching(block)[i], procs);
        LargerInterface(block, Branching(block)[i], procs, skip);
        CanStayExact(block, procs, skip);
      }
    }
  }

  // ---------- the check accepts all compatible programs ----------

  /** The program is accepted for each of its own paths, taken as an interface. */
  predicate PathsSuffice(block: CodeBlock, skip: bool) {
    forall p | p in Paths(block, skip) :: Accepts(block, p)
  }

  lemma AcceptsMore(block: CodeBlock, procs: seq<Word>, more: seq<Word>)
    requires Accepts(block, procs) && Within(procs, more)
    ensures Accepts(block, more)
  {
    var i :| 0 <= i < |Branching(block)| && Within(Branching(block)[i], procs);
    assert Within(Branching(block)[i], more);
  }

  /**
    For every program: no compatible execution is missed, for any interface and any number of
    loop runs, if and only if the program is accepted for each of its finitely many paths.
   */
  lemma CompleteExactly(block: CodeBlock, skip: bool)
    ensures Complete(block, skip) <==> PathsSuffice(block, skip)
  {
    if Complete(block, skip) {
      forall p | p in Paths(block, skip) ensures Accepts(block, p) {
        PathsAreExecutions(block, p, skip);
        assert Within(p, p);
      }
    }
    if PathsSuffice(block, skip) {
      forall calls, procs | Execution(block, calls, skip) && Within(calls, procs) ensures Accepts(block, procs) {
        ExecutionStays(block, calls, procs, skip);
        var p := StayingPath(block, procs, skip);
        AcceptsMore(block, p, procs);
      }
    }
  }

  /** The check decides compatibility. */
  ghost predicate Decides(block: CodeBlock, skip: bool) {
    forall procs :: Accepts(block, procs) <==>
      exists calls :: Execution(block, calls, skip) && Within(calls, procs)
  }

  /** Both directions: exactly for which programs the check decides compatibility. */
  lemma DecidesExactly(block: CodeBlock, skip: bool)
    ensures Decides(block, skip) <==> BranchesSuffice(block, skip) && PathsSuffice(block, skip)
  {
    SoundExactly(block, skip);
    CompleteExactly(block, skip);
    if Complete(block, skip) && Sound(block, skip) {
      forall procs ensures Accepts(block, procs) <==>
        exists calls :: Execution(block, calls, skip) && Within(calls, procs)
      {
        if calls :| Execution(block, calls, skip) && Within(calls, procs) {
          assert Accepts(block, procs);
        }
      }
    }
    if Decides(block, skip) {
      forall calls, procs | Execution(block, calls, skip) && Within(calls, procs) ensures Accepts(block, procs) {
      }
      assert Sound(block, skip);
    }
  }

  // ---------- the conditions that can be read off a program ----------

  /** Programs in which branching comes last are sound. */
  lemma BranchesLastIsSound(block: CodeBlock)
    requires BranchesLast(block)
    ensures BranchesSuffice(block, false)
  {
    forall i | 0 <= i < |Branching(block)| ensures CanStay(block, Branching(block)[i], false) {
      var b := Branching(block)[i];
      BranchesArePaths(block, i);
      assert Within(b, b);
      CanStayOnce(block, b);
    }
  }

  /** Programs that keep their silent paths are complete. */
  lemma SilentPathsAreComplete(block: CodeBlock, skip: bool)
    requires KeepsSilentPaths(block, skip)
    ensures PathsSuffice(block, skip)
  {
    forall p | p in Paths(block, skip) ensures Accepts(block, p) {
      PathsAreExecutions(block, p, skip);
      assert Within(p, p);
      Completeness(block, p, p, skip);
    }
  }

  /**
    The second part of a join is not looked at on the branches the first part pushed: the join is
    accepted with each of them as the interface, wrongly so if one of the parts cannot stay in it.
   */
  lemma JoinAcceptsTooMuch(first: CodeBlock, second: CodeBlock, i: nat, skip: bool)
    requires i < |Branching(first)| - 1
    ensures var procs := Branching(first)[i];
            && Accepts(Join(first, second), procs)
            && (CanStay(Join(first, second), procs, skip) <==> CanStay(first, procs, skip) && CanStay(second, procs, skip))
    ensures !CanStay(Join(first, second), Branching(first)[i], skip) ==> !Sound(Join(first, second), skip)
  {
    var block := Join(first, second);
    assert Branching(block)[i] == Branching(first)[i];
    OwnBranch(block, i);
    SoundExactly(block, skip);
  }

  // ---------- programs on which it goes wrong ----------

  /** A call behind a condition, with nothing to do otherwise, is refused to accounts without it. */
  lemma MissesSilentArm(a: Word)
    ensures var block := Split(Call(a, false), Span);
            && OncePath(block, []) && Within([], []) && !Accepts(block, [])
            && !Complete(block, false)
  {
    var block := Split(Call(a, false), Span);
    OnlySilentBranch(block);
    OncePathIsExecution(block, [], false);
    assert Within([], []);
  }

  /** So is a loop that calls, although the loop need not be entered. */
  lemma MissesSkippedLoop(a: Word)
    ensures var block := Loop(Call(a, false));
            Execution(block, [], true) && !Accepts(block, []) && !Complete(block, true) && Complete(block, false)
  {
    var block := Loop(Call(a, false));
    OnlySilentBranch(block);
    assert Execution(block, [], true) && Within([], []);
    SilentPathsAreComplete(block, false);
    CompleteExactly(block, false);
  }

  /** A choice of two calls, then a third: accepted for the second alone, which is wrong unless it is the third. */
  lemma AcceptsWithoutLastCall(a: Word, b: Word, c: Word)
    ensures var block := Join(Split(Call(a, false), Call(b, false)), Call(c, false));
            Accepts(block, [b]) && (Sound(block, false) <==> c == b)
  {
    var first, second := Split(Call(a, false), Call(b, false)), Call(c, false);
    var block := Join(first, second);
    assert Branching(first) == [[b], [a]];
    assert [a] + [c] == [a, c];
    assert Branching(block) == [[b], [a, c]];
    OwnBranch(block, 0);
    forall procs ensures CanStay(block, procs, false) <==> (a in procs || b in procs) && c in procs {
      assert CanStay(first, procs, false) <==> a in procs || b in procs;
    }
    SoundExactly(block, false);
  }

  /** Losing a silent path does no harm if what it misses is called anyway. */
  lemma SilentPathNotNeeded(a: Word)
    ensures var block := Join(Split(Call(a, false), Span), Call(a, false));
            !KeepsSilentPaths(block, false) && Decides(block, false)
  {
    var first, second := Split(Call(a, false), Span), Call(a, false);
    var block := Join(first, second);
    assert [a] + [a] == [a, a] && [] + [a] == [a];
    assert Branching(first) == [[a]];
    assert Branching(block) == [[a, a]];
    assert Paths(first, false) == {[a], []};
    forall p | p in Paths(block, false) ensures Accepts(block, p) {
      assert p == [a, a] || p == [a];
      assert a in p;
      assert Within(Branching(block)[0], p);
    }
    forall procs ensures CanStay(block, procs, false) <==> a in procs {
      assert CanStay(first, procs, false);
    }
    assert BranchesSuffice(block, false);
    DecidesExactly(block, false);
  }
}
