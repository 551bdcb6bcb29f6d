/** The graph scanner: walk every node of a stack, keep the candidates of the
    companion kind, and stop at the first one that refers to the subject. */
module Scanner {
  import opened Resources

  /** Some node of the stack is a candidate that matches. */
  predicate HasCompanion(stack: Stack, isCandidate: Resource -> bool, matches: Resource -> bool)
  {
    exists j :: 0 <= j < |stack| && isCandidate(stack[j]) && matches(stack[j])
  }

  /** The scan loop of the correlation rules: a `found` flag set on the first
      matching candidate, after which the loop breaks. */
  method FindCompanion(stack: Stack, isCandidate: Resource -> bool, matches: Resource -> bool)
    returns (found: bool)
    ensures found <==> HasCompanion(stack, isCandidate, matches)
  {
    found := false;
    var i := 0;
    while i < |stack|
      invariant 0 <= i <= |stack|
      invariant forall j :: 0 <= j < i ==> !(isCandidate(stack[j]) && matches(stack[j]))
    {
      var child := stack[i];
      if isCandidate(child) {
        if matches(child) {
          found := true;
          break;
        }
      }
      i := i + 1;
    }
  }

  /** Order does not matter: the verdict depends only on which nodes the
      stack holds. */
  lemma HasCompanionByMembership(stack: Stack, isCandidate: Resource -> bool, matches: Resource -> bool)
    ensures HasCompanion(stack, isCandidate, matches) <==>
      exists r :: r in stack && isCandidate(r) && matches(r)
  {
    if exists r :: r in stack && isCandidate(r) && matches(r) {
      var r :| r in stack && isCandidate(r) && matches(r);
      var j :| 0 <= j < |stack| && stack[j] == r;
      assert isCandidate(stack[j]) && matches(stack[j]);
    }
  }

  /** A stack without candidates has no companion, whatever else it holds. */
  lemma NoCandidateNoCompanion(stack: Stack, isCandidate: Resource -> bool, matches: Resource -> bool)
    requires forall j :: 0 <= j < |stack| ==> !isCandidate(stack[j])
    ensures !HasCompanion(stack, isCandidate, matches)
  {
  }

  /** A node that is not a candidate never changes the verdict, wherever it
      stands in the stack. */
  lemma NonCandidateIrrelevant(front: Stack, x: Resource, back: Stack,
                               isCandidate: Resource -> bool, matches: Resource -> bool)
    requires !isCandidate(x)
    ensures HasCompanion(front + [x] + back, isCandidate, matches) <==>
            HasCompanion(front + back, isCandidate, matches)
  {
    var s, t := front + [x] + back, front + back;
    if HasCompanion(s, isCandidate, matches) {
      var j :| 0 <= j < |s| && isCandidate(s[j]) && matches(s[j]);
      var k := if j < |front| then j else j - 1;
      assert s[j] == t[k];
    }
    if HasCompanion(t, isCandidate, matches) {
      var k :| 0 <= k < |t| && isCandidate(t[k]) && matches(t[k]);
      var j := if k < |front| then k else k + 1;
      assert s[j] == t[k];
    }
  }
}
