/** Which policy applies to a request, and why all its requests share one counter key.

    The optional match expression is an uninterpreted predicate on request and policy. */
module Matcher {
  import opened Model
  import opened Text
  import opened Keys

  predicate MatchString(scope: string, val: string) {
    scope == "" || scope == val
  }

  /** An empty scope field is a wildcard; a required tag compares with "" when the request lacks it. */
  predicate MatchesScope(req: Attributes, scope: Attributes) {
    && (forall i :: 0 <= i < |ORDER| ==> MatchString(Value(scope, ORDER[i]), Value(req, ORDER[i])))
    && (forall k :: k in scope.tags ==> Tag(req.tags, k) == scope.tags[k])
  }

  function Matching(expr: (Attributes, Policy) -> bool, req: Attributes, ps: seq<Policy>): seq<Policy> {
    if ps == [] then []
    else
      var p := ps[|ps| - 1];
      Matching(expr, req, ps[..|ps| - 1]) + if MatchesScope(req, p.scope) && expr(req, p) then [p] else []
  }

  /** A scope is matched exactly when every field it names, and every tag it requires, has that value. */
  lemma MatchesScopeIff(req: Attributes, scope: Attributes)
    ensures MatchesScope(req, scope) <==>
            && (forall f :: Value(scope, f) != "" ==> Value(req, f) == Value(scope, f))
            && (forall k :: k in scope.tags ==> Tag(req.tags, k) == scope.tags[k])
  {
    if MatchesScope(req, scope) {
      forall f | Value(scope, f) != "" ensures Value(req, f) == Value(scope, f) {
        var i := OrderComplete(f);
        assert MatchString(Value(scope, ORDER[i]), Value(req, ORDER[i]));
      }
    }
  }

  /** Matching keeps exactly the matching policies, and keeps their order: it splits wherever the list does. */
  lemma {:induction false} MatchingExact(expr: (Attributes, Policy) -> bool, req: Attributes, ps: seq<Policy>,
                                         more: seq<Policy>)
    ensures Matching(expr, req, ps + more) == Matching(expr, req, ps) + Matching(expr, req, more)
    ensures |more| == 1 ==>
      Matching(expr, req, more) == if MatchesScope(req, more[0].scope) && expr(req, more[0]) then more else []
  {
    if more == [] {
      assert ps + more == ps;
    } else {
      var init, last := more[..|more| - 1], more[|more| - 1];
      MatchingExact(expr, req, ps, init);
      assert (ps + more)[..|ps + more| - 1] == ps + init && (ps + more)[|ps + more| - 1] == last;
      assert |more| == 1 ==> init == [];
    }
  }

  /** The fields in the order specificityScore looks at them. */
  const WEIGHED: seq<Field> := [
    User, ApiKey, Client, Endpoint, HttpMethod, Operation, Service, App, Tenant, Org,
    Signal, Env, SourceIp, Region, Resource, Severity, Span, Topic, ConsumerGroup, JobType]

  function FieldScore(scope: Attributes, fields: seq<Field>): nat {
    if fields == [] then 0
    else FieldScore(scope, fields[..|fields| - 1]) + if Scoped(scope, fields[|fields| - 1]) then 10 else 0
  }

  function Score(scope: Attributes): nat {
    FieldScore(scope, WEIGHED) + |scope.tags|
  }

  /** `a` sorts before `b`: more specific, then higher priority, then larger id. */
  predicate Before(a: Policy, b: Policy) {
    if Score(a.scope) != Score(b.scope) then Score(a.scope) > Score(b.scope)
    else if a.priority != b.priority then a.priority > b.priority
    else Less(b.id, a.id)
  }

  lemma BeforeOrder(a: Policy, b: Policy, c: Policy)
    ensures !(Before(a, b) && Before(b, a))
    ensures Before(a, b) && !Before(c, b) ==> Before(a, c)
    ensures !Before(a, b) && !Before(b, a) ==> a.id == b.id
  {
    LessTotal(a.id, b.id);
    LessTotal(b.id, c.id);
    LessTotal(a.id, c.id);
    if Less(c.id, b.id) && Less(b.id, a.id) { LessTransitive(c.id, b.id, a.id); }
  }

  /** Where specificityScore looks at the field. */
  function Rank(f: Field): nat {
    match f
    case User => 0
    case ApiKey => 1
    case Client => 2
    case Endpoint => 3
    case HttpMethod => 4
    case Operation => 5
    case Service => 6
    case App => 7
    case Tenant => 8
    case Org => 9
    case Signal => 10
    case Env => 11
    case SourceIp => 12
    case Region => 13
    case Resource => 14
    case Severity => 15
    case Span => 16
    case Topic => 17
    case ConsumerGroup => 18
    case JobType => 19
  }

  lemma RankInverts(i: nat)
    requires i < |WEIGHED|
    ensures Rank(WEIGHED[i]) == i
  {
  }

  lemma WeighedComplete(f: Field)
    ensures Rank(f) < |WEIGHED| && WEIGHED[Rank(f)] == f
  {
  }

  lemma {:induction false} FieldScoreCounts(scope: Attributes, n: nat)
    requires n <= |WEIGHED|
    ensures FieldScore(scope, WEIGHED[..n]) == 10 * |set f: Field | Rank(f) < n && Value(scope, f) != ""|
  {
    if n == 0 {
      assert (set f: Field | Rank(f) < n && Value(scope, f) != "") == {};
    } else {
      FieldScoreCounts(scope, n - 1);
      var last := WEIGHED[n - 1];
      RankInverts(n - 1);
      forall f: Field | Rank(f) == n - 1 ensures f == last { WeighedComplete(f); }
      var before, upTo := set f: Field | Rank(f) < n - 1 && Value(scope, f) != "",
                          set f: Field | Rank(f) < n && Value(scope, f) != "";
      assert upTo == if Value(scope, last) != "" then before + {last} else before;
      assert WEIGHED[..n][..n - 1] == WEIGHED[..n - 1];
    }
  }

  /** Ten for every field the scope names, and one for every tag. */
  lemma ScoreCounts(scope: Attributes)
    ensures Score(scope) == 10 * |set f: Field | Value(scope, f) != ""| + |scope.tags|
  {
    FieldScoreCounts(scope, |WEIGHED|);
    assert WEIGHED[..|WEIGHED|] == WEIGHED;
    forall f: Field ensures Rank(f) < |WEIGHED| { WeighedComplete(f); }
    assert (set f: Field | Rank(f) < |WEIGHED| && Value(scope, f) != "") == (set f: Field | Value(scope, f) != "");
  }

  // ---------------------------------------------------------------- stable sort

  function Insert(ps: seq<Policy>, p: Policy): seq<Policy> {
    if ps == [] || !Before(p, ps[|ps| - 1]) then ps + [p]
    else Insert(ps[..|ps| - 1], p) + [ps[|ps| - 1]]
  }

  /** The library's stable sort. */
  function StableSorted(ps: seq<Policy>): (r: seq<Policy>)
    ensures |r| == |ps|
  {
    if ps == [] then []
    else
      InsertLength(StableSorted(ps[..|ps| - 1]), ps[|ps| - 1]);
      Insert(StableSorted(ps[..|ps| - 1]), ps[|ps| - 1])
  }

  lemma {:induction false} InsertLength(ps: seq<Policy>, p: Policy)
    ensures |Insert(ps, p)| == |ps| + 1
  {
    if ps != [] { InsertLength(ps[..|ps| - 1], p); }
  }

  predicate InOrder(ps: seq<Policy>) {
    forall i, j :: 0 <= i < j < |ps| ==> !Before(ps[j], ps[i])
  }

  lemma {:induction false} InsertElements(ps: seq<Policy>, p: Policy)
    ensures forall q :: q in Insert(ps, p) <==> q in ps || q == p
  {
    if ps != [] && Before(p, ps[|ps| - 1]) {
      InsertElements(ps[..|ps| - 1], p);
      assert ps == ps[..|ps| - 1] + [ps[|ps| - 1]];
    }
  }

  /** Nothing in the list comes after `last`. */
  predicate UpTo(ps: seq<Policy>, last: Policy) {
    forall i :: 0 <= i < |ps| ==> !Before(last, ps[i])
  }

  lemma InsertUpTo(ps: seq<Policy>, p: Policy, last: Policy)
    requires UpTo(ps, last) && Before(p, last)
    ensures UpTo(Insert(ps, p), last)
  {
    InsertElements(ps, p);
    BeforeOrder(p, last, last);
    forall i | 0 <= i < |Insert(ps, p)| ensures !Before(last, Insert(ps, p)[i]) {
      assert Insert(ps, p)[i] in ps || Insert(ps, p)[i] == p;
    }
  }

  lemma {:induction false} InsertOrdered(ps: seq<Policy>, p: Policy)
    requires InOrder(ps)
    ensures InOrder(Insert(ps, p))
  {
    if ps != [] {
      var init, last := ps[..|ps| - 1], ps[|ps| - 1];
      if Before(p, last) {
        InsertOrdered(init, p);
        InsertUpTo(init, p, last);
      } else {
        forall i | 0 <= i < |ps| ensures !Before(p, ps[i]) {
          if i < |ps| - 1 { BeforeOrder(p, ps[i], last); }
        }
      }
    }
  }

  /** The new head is the newcomer only if it beats the old head. */
  lemma {:induction false} InsertHead(ps: seq<Policy>, p: Policy)
    requires InOrder(ps)
    ensures |Insert(ps, p)| == |ps| + 1
    ensures Insert(ps, p)[0] == if ps != [] && !Before(p, ps[0]) then ps[0] else p
  {
    InsertLength(ps, p);
    if |ps| > 1 {
      if Before(p, ps[|ps| - 1]) {
        InsertHead(ps[..|ps| - 1], p);
      } else {
        BeforeOrder(p, ps[0], ps[|ps| - 1]);
      }
    }
  }

  /** The earliest policy that no other comes before. */
  function Best(ps: seq<Policy>): Policy
    requires ps != []
  {
    if |ps| == 1 then ps[0]
    else
      var b := Best(ps[..|ps| - 1]);
      if Before(ps[|ps| - 1], b) then ps[|ps| - 1] else b
  }

  lemma {:induction false} SortedHead(ps: seq<Policy>)
    ensures InOrder(StableSorted(ps))
    ensures forall q :: q in StableSorted(ps) <==> q in ps
    ensures ps != [] ==> StableSorted(ps)[0] == Best(ps)
  {
    if ps != [] {
      var init, last := ps[..|ps| - 1], ps[|ps| - 1];
      SortedHead(init);
      InsertOrdered(StableSorted(init), last);
      InsertHead(StableSorted(init), last);
      InsertElements(StableSorted(init), last);
      assert ps == init + [last];
    }
  }

  lemma {:induction false} InsertPermutes(ps: seq<Policy>, p: Policy)
    ensures multiset(Insert(ps, p)) == multiset(ps) + multiset{p}
  {
    if ps != [] && Before(p, ps[|ps| - 1]) {
      InsertPermutes(ps[..|ps| - 1], p);
      assert ps == ps[..|ps| - 1] + [ps[|ps| - 1]];
    }
  }

  lemma {:induction false} SortedPermutes(ps: seq<Policy>)
    ensures multiset(StableSorted(ps)) == multiset(ps)
  {
    if ps != [] {
      SortedPermutes(ps[..|ps| - 1]);
      InsertPermutes(StableSorted(ps[..|ps| - 1]), ps[|ps| - 1]);
      assert ps == ps[..|ps| - 1] + [ps[|ps| - 1]];
    }
  }

  // ---------------------------------------------------------------- the winner

  lemma {:induction false} BestIsMaximal(ps: seq<Policy>)
    requires ps != []
    ensures Best(ps) in ps && forall i :: 0 <= i < |ps| ==> !Before(ps[i], Best(ps))
  {
    if |ps| > 1 {
      var init, last := ps[..|ps| - 1], ps[|ps| - 1];
      BestIsMaximal(init);
      BeforeOrder(last, last, last);
      forall i | 0 <= i < |ps| ensures !Before(ps[i], Best(ps)) {
        if i < |init| { BeforeOrder(ps[i], last, Best(init)); BeforeOrder(last, Best(init), ps[i]); }
      }
    } else {
      BeforeOrder(ps[0], ps[0], ps[0]);
    }
  }

  /** Ties are broken by position: everything ahead of the winner in the input is strictly worse. */
  lemma {:induction false} BestIsFirst(ps: seq<Policy>) returns (k: nat)
    requires ps != []
    ensures k < |ps| && ps[k] == Best(ps) && forall j :: 0 <= j < k ==> Before(ps[k], ps[j])
  {
    if |ps| == 1 {
      k := 0;
    } else {
      var init, last := ps[..|ps| - 1], ps[|ps| - 1];
      k := BestIsFirst(init);
      if Before(last, Best(init)) {
        BestIsMaximal(init);
        forall j | 0 <= j < |init| ensures Before(last, ps[j]) { BeforeOrder(last, Best(init), ps[j]); }
        k := |ps| - 1;
      }
    }
  }

  /** No less specific than `q`; as specific, of no lower priority; and with both equal, of no smaller id. */
  predicate Outranks(w: Policy, q: Policy) {
    && Score(w.scope) >= Score(q.scope)
    && (Score(w.scope) == Score(q.scope) ==> w.priority >= q.priority)
    && (Score(w.scope) == Score(q.scope) && w.priority == q.priority ==> w.id == q.id || Less(q.id, w.id))
  }

  /** The winner outranks every matched policy. */
  lemma WinnerOutranks(ps: seq<Policy>, q: Policy)
    requires q in ps
    ensures Outranks(Best(ps), q)
  {
    BestIsMaximal(ps);
    LessTotal(Best(ps).id, q.id);
  }

  predicate DistinctIds(ps: seq<Policy>) {
    forall i, j :: 0 <= i < j < |ps| ==> ps[i].id != ps[j].id
  }

  /** With distinct ids the winner is the maximum by specificity, priority and id, whatever the order
      of the matched policies. */
  lemma WinnerOrderIndependent(ps: seq<Policy>, ps': seq<Policy>)
    requires ps != [] && multiset(ps) == multiset(ps') && DistinctIds(ps)
    ensures ps' != [] && StableSorted(ps)[0] == StableSorted(ps')[0]
    ensures forall q :: q in ps && q != StableSorted(ps)[0] ==> Before(StableSorted(ps)[0], q)
    ensures forall q :: q in ps ==> Outranks(StableSorted(ps)[0], q)
  {
    assert |multiset(ps)| == |multiset(ps')|;
    SortedHead(ps);
    SortedHead(ps');
    BestIsMaximal(ps);
    BestIsMaximal(ps');
    var a, b := Best(ps), Best(ps');
    assert b in multiset(ps') && a in multiset(ps);
    assert a in ps' && b in ps;
    BeforeOrder(a, b, b);
    forall q | q in ps ensures Outranks(a, q) { WinnerOutranks(ps, q); }
    forall q | q in ps && q != a ensures Before(a, q) {
      BeforeOrder(a, q, q);
    }
  }

  // ---------------------------------------------------------------- one key per policy

  lemma {:induction false} TagTextSame(tags: map<string, string>, tags': map<string, string>, keys: set<string>)
    requires forall k :: k in keys ==> Tag(tags, k) == Tag(tags', k)
    ensures TagText(tags, keys) == TagText(tags', keys)
    decreases |keys|
  {
    if keys != {} {
      LeastExists(keys);
      var k :| Least(k, keys);
      TagTextStep(tags, keys, k);
      TagTextStep(tags', keys, k);
      TagTextSame(tags, tags', keys - {k});
    }
  }

  /** Every request that matches a policy builds the same key: the one built from the scope's own values. */
  lemma KeyAgreement(prefix: string, sha1: string -> Digest, scope: Attributes, req: Attributes)
    requires MatchesScope(req, scope)
    ensures BuildKey(prefix, sha1, scope, req) == BuildKey(prefix, sha1, scope, scope)
  {
    forall f ensures Scoped(scope, f) ==> Sanitize(Value(req, f)) == Sanitize(Value(scope, f)) {
      var i := OrderComplete(f);
      assert MatchString(Value(scope, ORDER[i]), Value(req, ORDER[i]));
    }
    FieldEntriesSame(ORDER, scope, req, scope, scope);
    TagTextSame(req.tags, scope.tags, scope.tags.Keys);
  }

  // ---------------------------------------------------------------- the code

  method MatchFields(req: Attributes, scope: Attributes, order: seq<Field>) returns (ok: bool)
    ensures ok <==> forall i :: 0 <= i < |order| ==> MatchString(Value(scope, order[i]), Value(req, order[i]))
  {
    for i := 0 to |order|
      invariant forall j :: 0 <= j < i ==> MatchString(Value(scope, order[j]), Value(req, order[j]))
    {
      if !MatchString(Value(scope, order[i]), Value(req, order[i])) { return false; }
    }
    ok := true;
  }

  method MatchTags(reqTags: map<string, string>, required: map<string, string>) returns (ok: bool)
    ensures ok <==> forall k :: k in required ==> Tag(reqTags, k) == required[k]
  {
    var rest := required.Keys;
    while rest != {}
      invariant rest <= required.Keys
      invariant forall k :: k in required && k !in rest ==> Tag(reqTags, k) == required[k]
      decreases |rest|
    {
      var k :| k in rest;
      if Tag(reqTags, k) != required[k] { return false; }
      rest := rest - {k};
    }
    ok := true;
  }

  method Match(expr: (Attributes, Policy) -> bool, req: Attributes, policies: seq<Policy>)
    returns (matched: seq<Policy>)
    ensures matched == Matching(expr, req, policies)
  {
    matched := [];
    for i := 0 to |policies|
      invariant matched == Matching(expr, req, policies[..i])
    {
      assert policies[..i + 1][..i] == policies[..i];
      var fields := MatchFields(req, policies[i].scope, ORDER);
      var tags := MatchTags(req.tags, policies[i].scope.tags);
      if fields && tags && expr(req, policies[i]) { matched := matched + [policies[i]]; }
    }
    assert policies[..|policies|] == policies;
  }

  method SpecificityScore(scope: Attributes) returns (score: nat)
    ensures score == Score(scope)
  {
    score := 0;
    for i := 0 to |WEIGHED|
      invariant score == FieldScore(scope, WEIGHED[..i])
    {
      assert WEIGHED[..i + 1][..i] == WEIGHED[..i];
      if Value(scope, WEIGHED[i]) != "" { score := score + 10; }
    }
    assert WEIGHED[..|WEIGHED|] == WEIGHED;
    score := score + |scope.tags|;
  }

  datatype Selection = NoMatch | Winner(policy: Policy)

  /** Sorts the slice in place and takes its head. */
  method SelectWinner(policies: array<Policy>) returns (w: Selection)
    modifies policies
    ensures policies[..] == StableSorted(old(policies[..]))
    ensures w == if policies.Length == 0 then NoMatch else Winner(Best(old(policies[..])))
    ensures forall q :: q in old(policies[..]) ==> w.Winner? && Outranks(w.policy, q)
  {
    ghost var before := policies[..];
    if policies.Length == 0 { return NoMatch; }
    var sorted := StableSorted(policies[..]);
    forall i | 0 <= i < policies.Length {
      policies[i] := sorted[i];
    }
    assert policies[..] == sorted;
    SortedHead(before);
    forall q | q in before ensures Outranks(Best(before), q) { WinnerOutranks(before, q); }
    w := Winner(policies[0]);
  }
}
