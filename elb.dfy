/** ELBACMCertificateRequired: every listener of a classic load balancer
    must use a certificate whose id is an ACM certificate ARN, that is, one
    the regular expression `^arn:[^:]+:acm:.+$` accepts. */
module ELB {
  import opened Values
  import opened Resources
  import opened Patterns

  /** What the regular expression accepts, read position by position:
      `arn:`, a non-empty run of non-colons ending at `p`, `:acm:`, and at
      least one more character, none of them a line terminator. */
  predicate MatchesAcmRegex(s: string)
    ensures MatchesAcmRegex(s) ==> |s| >= 11 && s[..4] == "arn:"
  {
    exists p | 4 < p <= |s| - 6 :: AcmSplitAt(s, p)
  }

  /** The regular expression matches `s` with the partition ending at `p`. */
  predicate AcmSplitAt(s: string, p: int)
  {
    4 < p <= |s| - 6 &&
    s[..4] == "arn:" &&
    (forall k | 4 <= k < p :: s[k] != ':') &&
    s[p..p + 5] == ":acm:" &&
    (forall k | p + 5 <= k < |s| :: !IsLineTerminator(s[k]))
  }

  /** An ACM certificate ARN taken apart: the partition and what follows
      `:acm:`. */
  datatype AcmArn = AcmArn(partition: string, rest: string)

  predicate ValidAcmArn(a: AcmArn)
  {
    |a.partition| > 0 && ':' !in a.partition &&
    |a.rest| > 0 && forall c :: c in a.rest ==> !IsLineTerminator(c)
  }

  function Render(a: AcmArn): string
  {
    "arn:" + a.partition + ":acm:" + a.rest
  }

  /** The first colon at or after `from`. */
  function IndexOfColon(s: string, from: nat): (r: Option<nat>)
    decreases |s| - from
    ensures r.Some? ==> from <= r.value < |s| && s[r.value] == ':' &&
                        forall k :: from <= k < r.value ==> s[k] != ':'
    ensures r.None? ==> forall k :: from <= k < |s| ==> s[k] != ':'
  {
    if from >= |s| then None
    else if s[from] == ':' then Some(from)
    else IndexOfColon(s, from + 1)
  }

  /** A colon with no colon before it, from `from` on, is the one found. */
  lemma FirstColon(s: string, from: nat, p: nat)
    requires from <= p < |s| && s[p] == ':'
    requires forall k :: from <= k < p ==> s[k] != ':'
    ensures IndexOfColon(s, from) == Some(p)
  {
  }

  /** Take a certificate id apart as an ACM certificate ARN: the partition
      runs to the first colon after `arn:`. */
  function ParseAcmArn(s: string): (r: Option<AcmArn>)
    ensures r.Some? ==> ValidAcmArn(r.value) && Render(r.value) == s
  {
    if |s| < 4 || s[..4] != "arn:" then None
    else match IndexOfColon(s, 4)
      case None => None
      case Some(p) =>
        if p == 4 || p + 5 >= |s| || s[p..p + 5] != ":acm:" then None
        else if exists k | p + 5 <= k < |s| :: IsLineTerminator(s[k]) then None
        else
          var a := AcmArn(s[4..p], s[p + 5..]);
          assert forall c :: c in a.partition ==> c != ':';
          assert forall c :: c in a.rest ==> !IsLineTerminator(c);
          assert Render(a) == s[..4] + s[4..p] + s[p..p + 5] + s[p + 5..];
          Some(a)
  }

  /** Taking a rendered ARN apart gives back its parts. */
  lemma {:induction false} ParseRender(a: AcmArn)
    requires ValidAcmArn(a)
    ensures ParseAcmArn(Render(a)) == Some(a)
  {
    var s := Render(a);
    var p := 4 + |a.partition|;
    assert s[..4] == "arn:";
    assert forall k :: 4 <= k < p ==> s[k] == a.partition[k - 4];
    assert s[p] == ':';
    assert forall k :: 4 <= k < p ==> s[k] != ':';
    FirstColon(s, 4, p);
    assert s[4..p] == a.partition;
    assert s[p..p + 5] == ":acm:";
    assert s[p + 5..] == a.rest;
    assert forall k :: p + 5 <= k < |s| ==> s[k] == a.rest[k - p - 5];
    assert !exists k | p + 5 <= k < |s| :: IsLineTerminator(s[k]) by {
      forall k | p + 5 <= k < |s| ensures !IsLineTerminator(s[k]) {
        assert s[k] in a.rest;
      }
    }
  }

  /** The regular expression accepts exactly the rendered ARNs with valid
      parts. */
  lemma {:induction false} RegexAcceptsExactlyAcmArns(s: string)
    ensures MatchesAcmRegex(s) <==> ParseAcmArn(s).Some?
  {
    if ParseAcmArn(s).Some? {
      var p := 4 + |ParseAcmArn(s).value.partition|;
      assert IndexOfColon(s, 4) == Some(p);
      assert AcmSplitAt(s, p);
    }
    if MatchesAcmRegex(s) {
      var p :| 4 < p <= |s| - 6 && AcmSplitAt(s, p);
      assert s[p] == ':' by { assert s[p..p + 5][0] == ':'; }
      FirstColon(s, 4, p);
      assert !exists k | p + 5 <= k < |s| :: IsLineTerminator(s[k]);
      assert ParseAcmArn(s).Some?;
    }
  }

  /** A listener uses ACM when its certificate id is a string the regular
      expression accepts. An undefined or null id fails outright; a token, a
      boolean, a number or an object is tested through its string form, which
      never begins with `arn:`. */
  predicate ListenerUsesAcm(l: Listener)
    ensures ListenerUsesAcm(l) <==> l.sslCertificateId.Str? && MatchesAcmRegex(l.sslCertificateId.s)
    ensures LooselyUndefined(l.sslCertificateId) ==> !ListenerUsesAcm(l)
  {
    if LooselyUndefined(l.sslCertificateId) then false
    else match l.sslCertificateId
      case Str(s) => MatchesAcmRegex(s)
      case _ => false
  }

  /** The loop over the listeners, returning false on the first listener
      without an ACM certificate. */
  function AllListenersUseAcm(listeners: seq<Listener>): (r: bool)
    ensures r <==> forall i :: 0 <= i < |listeners| ==> ListenerUsesAcm(listeners[i])
  {
    if listeners == [] then true
    else if !ListenerUsesAcm(listeners[0]) then false
    else
      var rest := AllListenersUseAcm(listeners[1..]);
      assert forall i :: 1 <= i < |listeners| ==> listeners[i] == listeners[1..][i - 1];
      rest
  }

  /** The listener loop passes exactly when every certificate id is a
      string that parses as an ACM certificate ARN. */
  lemma ListenersUseAcmIffParse(ls: seq<Listener>)
    ensures AllListenersUseAcm(ls) <==>
      forall i :: 0 <= i < |ls| ==>
        ls[i].sslCertificateId.Str? && ParseAcmArn(ls[i].sslCertificateId.s).Some?
  {
    forall i | 0 <= i < |ls| && ls[i].sslCertificateId.Str? {
      RegexAcceptsExactlyAcmArns(ls[i].sslCertificateId.s);
    }
  }

  /** The rule. */
  function ELBACMCertificateRequired(node: Resource): (pass: bool)
    ensures !node.LoadBalancer? ==> pass
    ensures node.LoadBalancer? && node.listeners.None? ==> pass
    ensures node.LoadBalancer? && node.listeners.Some? ==>
      (pass <==> forall i :: 0 <= i < |node.listeners.value| ==>
                   node.listeners.value[i].sslCertificateId.Str? &&
                   ParseAcmArn(node.listeners.value[i].sslCertificateId.s).Some?)
  {
    match node
    case LoadBalancer(_, listeners) =>
      if listeners.None? then true
      else
        ListenersUseAcmIffParse(listeners.value);
        AllListenersUseAcm(listeners.value)
    case _ => true
  }

  /** An empty listener list passes. */
  lemma NoListenersPass(logicalId: string)
    ensures ELBACMCertificateRequired(LoadBalancer(logicalId, Some([])))
  {
  }

  /** A listener whose certificate id is undefined, null or an unresolved
      token fails the load balancer. */
  lemma UnresolvedCertificateFails(node: Resource, i: nat)
    requires node.LoadBalancer? && node.listeners.Some? && i < |node.listeners.value|
    requires !node.listeners.value[i].sslCertificateId.Str?
    ensures !ELBACMCertificateRequired(node)
  {
  }
}
