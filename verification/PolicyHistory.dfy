/** The versioned policy store: current policies, audit log, version snapshots and rollback.

    The payload is a value that the file round-trips.  Clock readings and generated audit ids are left
    out of the entries.  Rollback's read of the versions and its upsert are taken as one step. */
module PolicyHistory {
  import opened Common
  import opened Model

  datatype Action = Upserted | Deleted
  datatype Audit = Audit(id: string, action: Action, before: Option<Policy>, after: Option<Policy>)
  datatype Version = Version(id: string, number: int, snapshot: Policy)
  datatype Payload = Payload(policies: seq<Policy>, audits: seq<Audit>, versions: map<string, seq<Version>>)

  const EMPTY: Payload := Payload([], [], map[])

  /** First position of the id, or the length. */
  function Position(ps: seq<Policy>, id: string): (i: nat)
    ensures i <= |ps| && (i < |ps| ==> ps[i].id == id)
    ensures forall j :: 0 <= j < i ==> ps[j].id != id
  {
    if ps == [] then 0
    else
      var i := Position(ps[..|ps| - 1], id);
      if i < |ps| - 1 || ps[|ps| - 1].id == id then i else |ps|
  }

  function Lookup(ps: seq<Policy>, id: string): Option<Policy> {
    var i := Position(ps, id);
    if i < |ps| then Some(ps[i]) else None
  }

  function Without(ps: seq<Policy>, id: string): seq<Policy> {
    if ps == [] then []
    else Without(ps[..|ps| - 1], id) + if ps[|ps| - 1].id == id then [] else [ps[|ps| - 1]]
  }

  /** What the delete loop ends up remembering: the last policy with the id. */
  function LastWith(ps: seq<Policy>, id: string): Option<Policy> {
    if ps == [] then None
    else if ps[|ps| - 1].id == id then Some(ps[|ps| - 1])
    else LastWith(ps[..|ps| - 1], id)
  }

  function Versions(pl: Payload, id: string): seq<Version> {
    if id in pl.versions then pl.versions[id] else []
  }

  function Upsert(pl: Payload, p: Policy): Payload {
    var i := Position(pl.policies, p.id);
    var vs := Versions(pl, p.id);
    var number := if vs == [] then 1 else vs[|vs| - 1].number + 1;
    Payload(
      if i < |pl.policies| then pl.policies[i := p] else pl.policies + [p],
      pl.audits + [Audit(p.id, Upserted, Lookup(pl.policies, p.id), Some(p))],
      pl.versions[p.id := vs + [Version(p.id, number, p)]])
  }

  function Delete(pl: Payload, id: string): Payload {
    pl.(policies := Without(pl.policies, id),
        audits := pl.audits + [Audit(id, Deleted, LastWith(pl.policies, id), None)])
  }

  /** The requested version, or with none requested the one before the last. */
  function SelectVersion(vs: seq<Version>, requested: int): Option<Version> {
    if requested > 0 then Numbered(vs, requested)
    else if |vs| < 2 then None
    else Some(vs[|vs| - 2])
  }

  function Numbered(vs: seq<Version>, n: int): Option<Version> {
    if vs == [] then None else if vs[0].number == n then Some(vs[0]) else Numbered(vs[1..], n)
  }

  /** Unchanged when there is no such version. */
  function Rollback(pl: Payload, id: string, requested: int): Payload {
    var selected := SelectVersion(Versions(pl, id), requested);
    if selected.None? then pl else Upsert(pl, selected.value.snapshot.(id := id))
  }

  datatype Op = DoUpsert(p: Policy) | DoDelete(id: string) | DoRollback(id: string, requested: int)

  function Apply(pl: Payload, op: Op): Payload {
    match op
    case DoUpsert(p) => Upsert(pl, p)
    case DoDelete(id) => Delete(pl, id)
    case DoRollback(id, requested) => Rollback(pl, id, requested)
  }

  function Run(pl: Payload, ops: seq<Op>): Payload
    decreases |ops|
  {
    if ops == [] then pl else Run(Apply(pl, ops[0]), ops[1..])
  }

  // ---------------------------------------------------------------- replay

  /** The policies an audit log describes. */
  function Replay(audits: seq<Audit>): map<string, Policy> {
    if audits == [] then map[]
    else
      var m, a := Replay(audits[..|audits| - 1]), audits[|audits| - 1];
      if a.after.Some? then m[a.id := a.after.value] else m - {a.id}
  }

  function Get(m: map<string, Policy>, id: string): Option<Policy> {
    if id in m then Some(m[id]) else None
  }

  predicate DistinctIds(ps: seq<Policy>) {
    forall i, j :: 0 <= i < j < |ps| ==> ps[i].id != ps[j].id
  }

  predicate NumberedFor(vs: seq<Version>, id: string) {
    forall i :: 0 <= i < |vs| ==> vs[i].number == i + 1 && vs[i].id == id == vs[i].snapshot.id
  }

  predicate EndsWith(vs: seq<Version>, current: Option<Policy>) {
    current.Some? ==> vs != [] && vs[|vs| - 1].snapshot == current.value
  }

  predicate VersionsOk(pl: Payload, id: string) {
    NumberedFor(Versions(pl, id), id) && EndsWith(Versions(pl, id), Lookup(pl.policies, id))
  }

  predicate AuditOk(audits: seq<Audit>, i: nat)
    requires i < |audits|
  {
    audits[i].before == Get(Replay(audits[..i]), audits[i].id)
  }

  ghost predicate Inv(pl: Payload) {
    && DistinctIds(pl.policies)
    && (forall id :: Lookup(pl.policies, id) == Get(Replay(pl.audits), id))
    && (forall i :: 0 <= i < |pl.audits| ==> AuditOk(pl.audits, i))
    && (forall id :: VersionsOk(pl, id))
  }

  /** In a list without repeated ids, a policy at some position is what looking up its id finds. */
  lemma LookupAt(ps: seq<Policy>, i: nat)
    requires DistinctIds(ps) && i < |ps|
    ensures Lookup(ps, ps[i].id) == Some(ps[i])
  {
    assert Position(ps, ps[i].id) <= i;
  }

  lemma LookupNone(ps: seq<Policy>, id: string)
    requires forall i :: 0 <= i < |ps| ==> ps[i].id != id
    ensures Lookup(ps, id) == None
  {
  }

  lemma UpsertLookup(ps: seq<Policy>, p: Policy, id: string)
    requires DistinctIds(ps)
    ensures var i := Position(ps, p.id);
            var ps' := if i < |ps| then ps[i := p] else ps + [p];
            DistinctIds(ps') && Lookup(ps', id) == if id == p.id then Some(p) else Lookup(ps, id)
  {
    var i := Position(ps, p.id);
    var ps' := if i < |ps| then ps[i := p] else ps + [p];
    if id == p.id {
      assert ps'[i] == p;
      LookupAt(ps', i);
    } else if Lookup(ps, id).Some? {
      var j := Position(ps, id);
      assert ps'[j] == ps[j];
      LookupAt(ps', j);
    } else {
      LookupNone(ps', id);
    }
  }

  lemma {:induction false} WithoutElements(ps: seq<Policy>, id: string)
    ensures forall p :: p in Without(ps, id) <==> p in ps && p.id != id
  {
    if ps != [] {
      WithoutElements(ps[..|ps| - 1], id);
      assert ps == ps[..|ps| - 1] + [ps[|ps| - 1]];
    }
  }

  lemma {:induction false} WithoutDistinct(ps: seq<Policy>, id: string)
    requires DistinctIds(ps)
    ensures DistinctIds(Without(ps, id))
  {
    if ps != [] {
      var init, last := ps[..|ps| - 1], ps[|ps| - 1];
      WithoutDistinct(init, id);
      WithoutElements(init, id);
      forall i | 0 <= i < |Without(init, id)| ensures Without(init, id)[i].id != last.id {
        assert Without(init, id)[i] in init;
      }
    }
  }

  lemma {:induction false} LastIsLookup(ps: seq<Policy>, id: string)
    requires DistinctIds(ps)
    ensures LastWith(ps, id) == Lookup(ps, id)
  {
    if ps != [] {
      var init := ps[..|ps| - 1];
      if ps[|ps| - 1].id == id { LookupAt(ps, |ps| - 1); } else { LastIsLookup(init, id); }
    }
  }

  lemma DeleteLookup(ps: seq<Policy>, id: string, other: string)
    requires DistinctIds(ps)
    ensures Lookup(Without(ps, id), other) == if other == id then None else Lookup(ps, other)
    ensures LastWith(ps, id) == Lookup(ps, id)
  {
    LastIsLookup(ps, id);
    var ps' := Without(ps, id);
    WithoutElements(ps, id);
    WithoutDistinct(ps, id);
    if other != id && Lookup(ps, other).Some? {
      assert Lookup(ps, other).value in ps';
      var j :| 0 <= j < |ps'| && ps'[j] == Lookup(ps, other).value;
      LookupAt(ps', j);
    } else {
      forall i | 0 <= i < |ps'| ensures ps'[i].id != other {
        assert ps'[i] in ps';
        if ps'[i].id == other {
          var j :| 0 <= j < |ps| && ps[j] == ps'[i];
          LookupAt(ps, j);
        }
      }
      LookupNone(ps', other);
    }
  }

  lemma AuditSnoc(audits: seq<Audit>, a: Audit)
    requires forall i :: 0 <= i < |audits| ==> AuditOk(audits, i)
    requires a.before == Get(Replay(audits), a.id)
    ensures forall i :: 0 <= i < |audits| + 1 ==> AuditOk(audits + [a], i)
    ensures Replay(audits + [a]) ==
            if a.after.Some? then Replay(audits)[a.id := a.after.value] else Replay(audits) - {a.id}
  {
    var all := audits + [a];
    assert all[..|audits|] == audits;
    forall i | 0 <= i < |all| ensures AuditOk(all, i) {
      if i < |audits| {
        assert all[..i] == audits[..i];
        assert AuditOk(audits, i);
      }
    }
  }

  lemma NumberedSnoc(vs: seq<Version>, p: Policy)
    requires NumberedFor(vs, p.id)
    ensures var v := Version(p.id, if vs == [] then 1 else vs[|vs| - 1].number + 1, p);
            NumberedFor(vs + [v], p.id) && EndsWith(vs + [v], Some(p))
  {
  }

  lemma UpsertVersions(pl: Payload, p: Policy, id: string)
    requires DistinctIds(pl.policies) && VersionsOk(pl, id)
    ensures VersionsOk(Upsert(pl, p), id)
  {
    UpsertLookup(pl.policies, p, id);
    if id == p.id { NumberedSnoc(Versions(pl, id), p); }
  }

  lemma UpsertReplay(pl: Payload, p: Policy, id: string)
    requires DistinctIds(pl.policies)
    requires Lookup(pl.policies, id) == Get(Replay(pl.audits), id)
    ensures Lookup(Upsert(pl, p).policies, id) == Get(Replay(Upsert(pl, p).audits), id)
  {
    UpsertLookup(pl.policies, p, id);
    var audits' := Upsert(pl, p).audits;
    assert audits'[..|pl.audits|] == pl.audits;
  }

  lemma UpsertKeeps(pl: Payload, p: Policy)
    requires Inv(pl)
    ensures Inv(Upsert(pl, p))
  {
    var pl' := Upsert(pl, p);
    assert DistinctIds(pl'.policies) by { UpsertLookup(pl.policies, p, p.id); }
    assert forall i :: 0 <= i < |pl'.audits| ==> AuditOk(pl'.audits, i) by {
      assert Lookup(pl.policies, p.id) == Get(Replay(pl.audits), p.id);
      AuditSnoc(pl.audits, Audit(p.id, Upserted, Lookup(pl.policies, p.id), Some(p)));
    }
    forall id ensures Lookup(pl'.policies, id) == Get(Replay(pl'.audits), id) {
      assert Lookup(pl.policies, id) == Get(Replay(pl.audits), id);
      UpsertReplay(pl, p, id);
    }
    forall id ensures VersionsOk(pl', id) {
      assert VersionsOk(pl, id);
      UpsertVersions(pl, p, id);
    }
  }

  lemma DeleteKeeps(pl: Payload, id: string)
    requires Inv(pl)
    ensures Inv(Delete(pl, id))
  {
    var pl' := Delete(pl, id);
    WithoutDistinct(pl.policies, id);
    LastIsLookup(pl.policies, id);
    assert Lookup(pl.policies, id) == Get(Replay(pl.audits), id);
    AuditSnoc(pl.audits, Audit(id, Deleted, LastWith(pl.policies, id), None));
    forall other ensures Lookup(pl'.policies, other) == Get(Replay(pl'.audits), other) && VersionsOk(pl', other) {
      DeleteLookup(pl.policies, id, other);
      assert Lookup(pl.policies, other) == Get(Replay(pl.audits), other);
      assert VersionsOk(pl, other);
    }
  }

  lemma StepKeeps(pl: Payload, op: Op)
    requires Inv(pl)
    ensures Inv(Apply(pl, op))
  {
    match op {
      case DoUpsert(p) => UpsertKeeps(pl, p);
      case DoDelete(id) => DeleteKeeps(pl, id);
      case DoRollback(id, requested) =>
        var selected := SelectVersion(Versions(pl, id), requested);
        if selected.Some? { UpsertKeeps(pl, selected.value.snapshot.(id := id)); }
    }
  }

  lemma {:induction false} RunKeeps(pl: Payload, ops: seq<Op>)
    requires Inv(pl)
    ensures Inv(Run(pl, ops))
    decreases |ops|
  {
    if ops != [] {
      StepKeeps(pl, ops[0]);
      RunKeeps(Apply(pl, ops[0]), ops[1..]);
    }
  }

  /** From an empty file, after any run: replaying the audit log gives exactly the current policies, each
      entry's old value is what the log before it replays to, and the versions of every id are numbered
      1 to n, the last being the current policy when there is one. */
  lemma ReplayMatches(ops: seq<Op>)
    ensures var pl := Run(EMPTY, ops);
            && DistinctIds(pl.policies)
            && (forall id :: Lookup(pl.policies, id) == Get(Replay(pl.audits), id))
            && (forall i :: 0 <= i < |pl.audits| ==> AuditOk(pl.audits, i))
            && (forall id :: VersionsOk(pl, id))
  {
    RunKeeps(EMPTY, ops);
  }

  // ---------------------------------------------------------------- append-only

  ghost predicate Extends(pl': Payload, pl: Payload) {
    && pl.audits <= pl'.audits
    && forall id :: Versions(pl, id) <= Versions(pl', id)
  }

  lemma StepExtends(pl: Payload, op: Op)
    ensures Extends(Apply(pl, op), pl)
  {
  }

  /** No operation ever rewrites history. */
  lemma {:induction false} HistoryAppendOnly(pl: Payload, ops: seq<Op>)
    ensures Extends(Run(pl, ops), pl)
    decreases |ops|
  {
    if ops != [] {
      var next := Apply(pl, ops[0]);
      StepExtends(pl, ops[0]);
      HistoryAppendOnly(next, ops[1..]);
      forall id ensures Versions(pl, id) <= Versions(Run(pl, ops), id) {
        assert Versions(pl, id) <= Versions(next, id) <= Versions(Run(next, ops[1..]), id);
      }
    }
  }

  // ---------------------------------------------------------------- one policy's log

  function AuditsOf(audits: seq<Audit>, id: string): seq<Audit> {
    if audits == [] then []
    else AuditsOf(audits[..|audits| - 1], id) + if audits[|audits| - 1].id == id then [audits[|audits| - 1]] else []
  }

  /** The entries listed for one policy are enough to reconstruct it. */
  lemma {:induction false} OwnAuditsSuffice(audits: seq<Audit>, id: string)
    ensures Get(Replay(AuditsOf(audits, id)), id) == Get(Replay(audits), id)
  {
    if audits != [] {
      var init, last := audits[..|audits| - 1], audits[|audits| - 1];
      OwnAuditsSuffice(init, id);
      if last.id == id {
        var own := AuditsOf(init, id);
        assert (own + [last])[..|own|] == own;
      } else {
        assert AuditsOf(audits, id) == AuditsOf(init, id);
      }
    }
  }

  lemma ListedAuditsReplay(ops: seq<Op>, id: string)
    ensures var pl := Run(EMPTY, ops);
            Get(Replay(AuditsOf(pl.audits, id)), id) == Lookup(pl.policies, id)
  {
    ReplayMatches(ops);
    OwnAuditsSuffice(Run(EMPTY, ops).audits, id);
  }

  // ---------------------------------------------------------------- rollback twice

  lemma UpsertPresent(pl: Payload, p: Policy)
    requires Position(pl.policies, p.id) < |pl.policies|
    ensures var pl' := Upsert(pl, p);
            && Position(pl'.policies, p.id) == Position(pl.policies, p.id)
            && pl'.policies == pl.policies[Position(pl.policies, p.id) := p]
  {
    var i, ps' := Position(pl.policies, p.id), Upsert(pl, p).policies;
    var j := Position(ps', p.id);
    assert ps'[i].id == p.id;
    assert j <= i;
  }

  /** Two rollbacks in a row with no version requested restore the policy list, for every policy that
      exists: the second undoes the first. */
  lemma RollbackTwice(ops: seq<Op>, id: string, none: int)
    requires none <= 0
    requires Lookup(Run(EMPTY, ops).policies, id).Some?
    ensures var pl := Run(EMPTY, ops);
            Rollback(Rollback(pl, id, none), id, none).policies == pl.policies
  {
    ReplayMatches(ops);
    var pl := Run(EMPTY, ops);
    var vs := Versions(pl, id);
    assert VersionsOk(pl, id);
    if |vs| >= 2 {
      var older, current := vs[|vs| - 2].snapshot, vs[|vs| - 1].snapshot;
      var pl1 := Rollback(pl, id, none);
      assert older.(id := id) == older && pl1 == Upsert(pl, older);
      UpsertPresent(pl, older);
      assert Versions(pl1, id)[|vs| - 1] == vs[|vs| - 1] && |Versions(pl1, id)| == |vs| + 1;
      assert Rollback(pl1, id, none) == Upsert(pl1, current);
      UpsertPresent(pl1, current);
    }
  }

  /** A deleted policy comes back as the version before its last, and only a second rollback as the last. */
  lemma RollbackAfterDelete(ops: seq<Op>, id: string, none: int)
    requires none <= 0
    requires Lookup(Run(EMPTY, ops).policies, id).None? && |Versions(Run(EMPTY, ops), id)| >= 2
    ensures var pl := Run(EMPTY, ops);
            var vs := Versions(pl, id);
            && Lookup(Rollback(pl, id, none).policies, id) == Some(vs[|vs| - 2].snapshot)
            && Lookup(Rollback(Rollback(pl, id, none), id, none).policies, id) == Some(vs[|vs| - 1].snapshot)
  {
    ReplayMatches(ops);
    var pl := Run(EMPTY, ops);
    var vs := Versions(pl, id);
    assert VersionsOk(pl, id);
    var older, last := vs[|vs| - 2].snapshot, vs[|vs| - 1].snapshot;
    var pl1 := Rollback(pl, id, none);
    assert pl1 == Upsert(pl, older);
    UpsertLookup(pl.policies, older, id);
    assert Versions(pl1, id)[|vs| - 1] == vs[|vs| - 1] && |Versions(pl1, id)| == |vs| + 1;
    assert Rollback(pl1, id, none) == Upsert(pl1, last);
    UpsertLookup(pl1.policies, last, id);
  }

  lemma {:induction false} NumberedAt(vs: seq<Version>, n: int, from: int)
    requires forall i :: 0 <= i < |vs| ==> vs[i].number == from + i
    ensures Numbered(vs, n) == if from <= n < from + |vs| then Some(vs[n - from]) else None
  {
    if vs != [] && vs[0].number != n { NumberedAt(vs[1..], n, from + 1); }
  }

  /** A rollback to a requested version makes that version's snapshot current, deleted or not, and no other policy
      changes; one to a version that never was, or with none requested and no older version, changes nothing. */
  lemma RollbackRestores(ops: seq<Op>, id: string, requested: int, other: string)
    ensures var pl := Run(EMPTY, ops);
            var vs, pl' := Versions(pl, id), Rollback(pl, id, requested);
            && (1 <= requested <= |vs| ==> Restored(pl', pl, vs[requested - 1].snapshot, other))
            && (requested <= 0 && |vs| >= 2 ==> Restored(pl', pl, vs[|vs| - 2].snapshot, other))
            && (requested > |vs| || (requested <= 0 && |vs| < 2) ==> pl' == pl)
  {
    ReplayMatches(ops);
    var pl := Run(EMPTY, ops);
    var vs := Versions(pl, id);
    assert VersionsOk(pl, id);
    if requested > 0 { NumberedAt(vs, requested, 1); }
    if SelectVersion(vs, requested).Some? {
      var p := SelectVersion(vs, requested).value.snapshot;
      assert p.(id := id) == p;
      UpsertRestores(pl, p, other);
    }
  }

  /** `p` is current under its id and its newest version, and another id is looked up as before. */
  predicate Restored(pl': Payload, pl: Payload, p: Policy, other: string) {
    && Lookup(pl'.policies, p.id) == Some(p)
    && Versions(pl', p.id) == Versions(pl, p.id) + [Version(p.id, |Versions(pl, p.id)| + 1, p)]
    && (other != p.id ==> Lookup(pl'.policies, other) == Lookup(pl.policies, other))
  }

  lemma UpsertRestores(pl: Payload, p: Policy, other: string)
    requires DistinctIds(pl.policies) && NumberedFor(Versions(pl, p.id), p.id)
    ensures Restored(Upsert(pl, p), pl, p, other)
  {
    UpsertLookup(pl.policies, p, p.id);
    UpsertLookup(pl.policies, p, other);
  }

  /** What an entry says was done is what was done: it tells of a deletion exactly when it has no new value, and
      its new value carries its id. */
  predicate ActionOk(a: Audit) {
    (a.action == Deleted <==> a.after.None?) && (a.after.Some? ==> a.after.value.id == a.id)
  }

  predicate ActionsOk(audits: seq<Audit>) {
    forall i :: 0 <= i < |audits| ==> ActionOk(audits[i])
  }

  lemma StepActions(pl: Payload, op: Op)
    requires ActionsOk(pl.audits)
    ensures ActionsOk(Apply(pl, op).audits)
  {
    var audits := Apply(pl, op).audits;
    assert audits == pl.audits || (audits == pl.audits + [audits[|pl.audits|]] && ActionOk(audits[|pl.audits|]));
  }

  lemma {:induction false} ActionsMatch(pl: Payload, ops: seq<Op>)
    requires ActionsOk(pl.audits)
    ensures ActionsOk(Run(pl, ops).audits)
    decreases |ops|
  {
    if ops != [] {
      StepActions(pl, ops[0]);
      ActionsMatch(Apply(pl, ops[0]), ops[1..]);
    }
  }

  /** Every upsert and every deletion leaves one entry, about its own policy, and so does every rollback that finds
      its version. */
  lemma OneEntryEach(pl: Payload, op: Op)
    ensures var pl' := Apply(pl, op);
            && (op.DoUpsert? ==> |pl'.audits| == |pl.audits| + 1 && pl'.audits[|pl.audits|].after == Some(op.p))
            && (op.DoDelete? ==>
                  && |pl'.audits| == |pl.audits| + 1 && pl'.audits[|pl.audits|].id == op.id
                  && pl'.audits[|pl.audits|].after == None && pl'.versions == pl.versions)
            && (op.DoRollback? && pl' != pl ==>
                  |pl'.audits| == |pl.audits| + 1 && pl'.audits[|pl.audits|].id == op.id)
  {
  }

  // ---------------------------------------------------------------- the code

  class FileStore {
    var payload: Payload

    constructor ()
      ensures payload == EMPTY
    {
      payload := EMPTY;
    }

    method GetPolicyById(id: string) returns (p: Option<Policy>)
      ensures p == Lookup(payload.policies, id)
    {
      for i := 0 to |payload.policies|
        invariant forall j :: 0 <= j < i ==> payload.policies[j].id != id
      {
        if payload.policies[i].id == id {
          assert Position(payload.policies, id) == i;
          return Some(payload.policies[i]);
        }
      }
      p := None;
    }

    method UpsertPolicy(p: Policy)
      modifies this
      ensures payload == Upsert(old(payload), p)
    {
      var all, updated, oldPolicy := payload.policies, false, None;
      var i := 0;
      while i < |all|
        invariant i <= |all| && !updated && all == payload.policies && oldPolicy == None
        invariant forall j :: 0 <= j < i ==> all[j].id != p.id
      {
        if all[i].id == p.id {
          assert Position(all, p.id) == i;
          oldPolicy := Some(all[i]);
          all := all[i := p];
          updated := true;
          break;
        }
        i := i + 1;
      }
      if !updated {
        assert Position(all, p.id) == |all|;
        all := all + [p];
      }
      var vs := Versions(payload, p.id);
      var version := 1;
      if |vs| > 0 { version := vs[|vs| - 1].number + 1; }
      payload := Payload(all,
                         payload.audits + [Audit(p.id, Upserted, oldPolicy, Some(p))],
                         payload.versions[p.id := vs + [Version(p.id, version, p)]]);
    }

    method DeletePolicy(id: string)
      modifies this
      ensures payload == Delete(old(payload), id)
    {
      var all := payload.policies;
      var kept: seq<Policy>, oldPolicy := [], None;
      for i := 0 to |all|
        invariant kept == Without(all[..i], id) && oldPolicy == LastWith(all[..i], id)
      {
        assert all[..i + 1][..i] == all[..i];
        if all[i].id != id { kept := kept + [all[i]]; } else { oldPolicy := Some(all[i]); }
      }
      assert all[..|all|] == all;
      payload := payload.(policies := kept, audits := payload.audits + [Audit(id, Deleted, oldPolicy, None)]);
    }

    method ListPolicyAudit(id: string) returns (entries: seq<Audit>)
      ensures entries == AuditsOf(payload.audits, id)
    {
      var all := payload.audits;
      entries := [];
      for i := 0 to |all|
        invariant entries == AuditsOf(all[..i], id)
      {
        assert all[..i + 1][..i] == all[..i];
        if all[i].id == id { entries := entries + [all[i]]; }
      }
      assert all[..|all|] == all;
    }

    method ListPolicyVersions(id: string) returns (vs: seq<Version>)
      ensures vs == Versions(payload, id)
    {
      vs := if id in payload.versions then payload.versions[id] else [];
    }

    /** The rollback branch of the policies handler; false is its 404 reply. */
    method RollbackPolicy(id: string, requested: int) returns (found: bool)
      modifies this
      ensures payload == Rollback(old(payload), id, requested)
      ensures found <==> SelectVersion(Versions(old(payload), id), requested).Some?
    {
      var vs := ListPolicyVersions(id);
      if |vs| == 0 { return false; }
      var selected := SelectVersionForRollback(vs, requested);
      if selected.None? { return false; }
      UpsertPolicy(selected.value.snapshot.(id := id));
      found := true;
    }
  }

  method SelectVersionForRollback(vs: seq<Version>, requested: int) returns (v: Option<Version>)
    ensures v == SelectVersion(vs, requested)
  {
    if |vs| == 0 { return None; }
    if requested > 0 {
      for i := 0 to |vs|
        invariant Numbered(vs, requested) == Numbered(vs[i..], requested)
      {
        if vs[i].number == requested { return Some(vs[i]); }
      }
      return None;
    }
    if |vs| < 2 { return None; }
    v := Some(vs[|vs| - 2]);
  }
}
