/** Judge sandbox sessions: expiry decided at resolution, sweeps that merely tidy up, namespaced keys. */
module JudgeSandbox {
  import opened Collections

  type OrgId = int

  datatype Status = Active | Expired

  datatype Sandbox = Sandbox(session: int, status: Status, expiresAt: int)

  /** The organization id of a sandbox is unique and never reused. */
  type Sandboxes = map<OrgId, Sandbox>

  datatype Outcome = NotFound | Gone | Live(sandbox: Sandbox)

  const HOUR := 3600

  predicate HasExpired(sandbox: Sandbox, now: int) {
    sandbox.expiresAt <= now
  }

  function Resolve(sandboxes: Sandboxes, org: OrgId, now: int): Outcome {
    if org !in sandboxes then NotFound
    else if !sandboxes[org].status.Active? || HasExpired(sandboxes[org], now) then Gone
    else Live(sandboxes[org])
  }

  function Due(sandboxes: Sandboxes, now: int): set<OrgId> {
    set org | org in sandboxes && sandboxes[org].status.Active? && sandboxes[org].expiresAt <= now
  }

  function MarkExpired(sandboxes: Sandboxes, orgs: set<OrgId>): Sandboxes {
    map org | org in sandboxes :: if org in orgs then sandboxes[org].(status := Expired) else sandboxes[org]
  }

  /** A sweep expires some of the due sandboxes, as many as its limit allows. */
  ghost predicate Sweep(pre: Sandboxes, now: int, limit: nat, expired: nat, post: Sandboxes) {
    exists picked ::
      picked <= Due(pre, now) && |picked| == Min(limit, |Due(pre, now)|) && expired == |picked| && post == MarkExpired(pre, picked)
  }

  class JudgeSandboxService {
    var sandboxes: Sandboxes

    constructor ()
      ensures sandboxes == map[]
    {
      sandboxes := map[];
    }

    /** A new sandbox under a fresh organization id; a non-positive lifetime is refused. */
    method Provision(org: OrgId, session: int, now: int, ttlHours: int) returns (provisioned: bool)
      requires org !in sandboxes
      modifies this
      ensures provisioned <==> ttlHours > 0
      ensures sandboxes ==
        if provisioned then old(sandboxes)[org := Sandbox(session, Active, now + HOUR * ttlHours)] else old(sandboxes)
      ensures provisioned ==> forall moment ::
        Resolve(sandboxes, org, moment) == if moment < now + 3600 * ttlHours then Live(sandboxes[org]) else Gone
    {
      if ttlHours <= 0 {
        return false;
      }
      sandboxes := sandboxes[org := Sandbox(session, Active, now + HOUR * ttlHours)];
      return true;
    }

    method ResolveAt(org: OrgId, now: int) returns (outcome: Outcome)
      ensures outcome == Resolve(sandboxes, org, now)
    {
      if org !in sandboxes {
        return NotFound;
      }
      var record := sandboxes[org];
      if record.status != Active || HasExpired(record, now) {
        return Gone;
      }
      return Live(record);
    }

    method ExpireDue(now: int, limit: nat) returns (expired: nat)
      modifies this
      ensures Sweep(old(sandboxes), now, limit, expired, sandboxes)
      ensures sandboxes.Keys == old(sandboxes).Keys
      ensures forall org :: org in sandboxes && sandboxes[org] != old(sandboxes)[org] ==>
        && old(sandboxes)[org].status.Active? && old(sandboxes)[org].expiresAt <= now
        && sandboxes[org] == old(sandboxes)[org].(status := Expired)
      ensures expired < limit ==> forall org :: org in sandboxes ==> !(sandboxes[org].status.Active? && sandboxes[org].expiresAt <= now)
    {
      ghost var before := sandboxes;
      var rest := Due(sandboxes, now);
      ghost var picked: set<OrgId> := {};
      expired := 0;
      assert MarkExpired(before, {}) == before;
      hide MarkExpired, Due;
      while expired < limit && rest != {}
        invariant picked !! rest && picked + rest == Due(before, now)
        invariant expired == |picked| <= limit
        invariant |picked| + |rest| == |Due(before, now)|
        invariant sandboxes == MarkExpired(before, picked)
        decreases |rest|
      {
        var org := Pick(rest);
        MarkOne(before, picked, org, now);
        sandboxes := sandboxes[org := sandboxes[org].(status := Expired)];
        rest := rest - {org};
        picked := picked + {org};
        expired := expired + 1;
      }
    }
  }

  lemma MarkOne(sandboxes: Sandboxes, picked: set<OrgId>, org: OrgId, now: int)
    requires org in Due(sandboxes, now) && org !in picked
    ensures org in sandboxes && org in MarkExpired(sandboxes, picked) && MarkExpired(sandboxes, picked)[org] == sandboxes[org]
    ensures MarkExpired(sandboxes, picked + {org}) == MarkExpired(sandboxes, picked)[org := sandboxes[org].(status := Expired)]
  {
  }

  /** A sweep that picks an organization's sandbox changes how it resolves exactly when the sandbox would
      still have been live at the moment of the query. */
  lemma SweepObservableIff(pre: Sandboxes, picked: set<OrgId>, org: OrgId, query: int)
    ensures Resolve(MarkExpired(pre, picked), org, query) != Resolve(pre, org, query) <==>
      org in picked && Resolve(pre, org, query).Live?
  {
  }

  /** So a sweep made no later than the query cannot be observed, whatever its limit and its choice. */
  lemma SweepUnobservable(pre: Sandboxes, now: int, limit: nat, expired: nat, post: Sandboxes, org: OrgId, query: int)
    requires Sweep(pre, now, limit, expired, post) && now <= query
    ensures Resolve(post, org, query) == Resolve(pre, org, query)
  {
    var picked :| picked <= Due(pre, now) && post == MarkExpired(pre, picked);
    SweepObservableIff(pre, picked, org, query);
  }

  /** Every sweep makes progress: what it reports is what it changed, and nothing else becomes due. */
  lemma SweepShrinksDue(pre: Sandboxes, now: int, limit: nat, expired: nat, post: Sandboxes)
    requires Sweep(pre, now, limit, expired, post)
    ensures |Due(post, now)| == |Due(pre, now)| - expired && expired == Min(limit, |Due(pre, now)|)
    ensures Due(post, now) <= Due(pre, now)
  {
    hide Due, MarkExpired;
    var picked :|
      picked <= Due(pre, now) && |picked| == Min(limit, |Due(pre, now)|) && expired == |picked| && post == MarkExpired(pre, picked);
    DueAfterMarking(pre, picked, now);
  }

  lemma DueAfterMarking(pre: Sandboxes, picked: set<OrgId>, now: int)
    requires picked <= Due(pre, now)
    ensures Due(MarkExpired(pre, picked), now) == Due(pre, now) - picked
  {
  }

  // ---- whole runs ----

  datatype Op =
    | Provisioned(org: OrgId, session: int, now: int, ttlHours: int)
    | Swept(picked: set<OrgId>, now: int)

  function Apply(sandboxes: Sandboxes, op: Op): Sandboxes {
    match op
    case Provisioned(org, session, now, ttlHours) =>
      if org in sandboxes || ttlHours <= 0 then sandboxes
      else sandboxes[org := Sandbox(session, Active, now + HOUR * ttlHours)]
    case Swept(picked, now) => MarkExpired(sandboxes, picked * Due(sandboxes, now))
  }

  function Run(ops: seq<Op>): Sandboxes {
    if ops == [] then map[] else Apply(Run(ops[..|ops| - 1]), ops[|ops| - 1])
  }

  /** The same run without its sweeps. */
  function WithoutSweeps(ops: seq<Op>): seq<Op> {
    if ops == [] then []
    else WithoutSweeps(ops[..|ops| - 1]) + (if ops[|ops| - 1].Swept? then [] else [ops[|ops| - 1]])
  }

  /** `swept` is `plain` with some sandboxes marked that had run out by `moment` anyway. */
  ghost predicate TidiedBy(plain: Sandboxes, swept: Sandboxes, moment: int) {
    && plain.Keys == swept.Keys
    && forall org :: org in plain ==>
         swept[org] == plain[org] || (swept[org] == plain[org].(status := Expired) && plain[org].expiresAt <= moment)
  }

  lemma {:induction false} SweepsOnlyTidy(ops: seq<Op>, moment: int)
    requires forall i :: 0 <= i < |ops| && ops[i].Swept? ==> ops[i].now <= moment
    ensures TidiedBy(Run(WithoutSweeps(ops)), Run(ops), moment)
  {
    if ops != [] {
      var n := |ops| - 1;
      SweepsOnlyTidy(ops[..n], moment);
      var plain := WithoutSweeps(ops[..n]);
      if ops[n].Swept? {
        assert WithoutSweeps(ops) == plain;
      } else {
        assert WithoutSweeps(ops) == plain + [ops[n]];
        assert WithoutSweeps(ops)[..|WithoutSweeps(ops)| - 1] == plain;
      }
    }
  }

  /** Over any run, with any number of sweeps at any times up to the query, every organization resolves as
      if no sweep had ever run. */
  lemma {:induction false} SweepsNeverObserved(ops: seq<Op>, org: OrgId, query: int)
    requires forall i :: 0 <= i < |ops| && ops[i].Swept? ==> ops[i].now <= query
    ensures Resolve(Run(ops), org, query) == Resolve(Run(WithoutSweeps(ops)), org, query)
  {
    SweepsOnlyTidy(ops, query);
  }

  // ---- namespaced keys ----

  const PREFIX := "deceptiforge:judge"

  datatype Namespace = Namespace(environment: string, organization: string, session: string)

  /** One field and a separator before the rest of a key. */
  function Field(first: string, rest: string): string {
    first + ":" + rest
  }

  function Join(parts: seq<string>): string {
    if parts == [] then ""
    else if |parts| == 1 then parts[0]
    else Field(parts[0], Join(parts[1..]))
  }

  function Scope(ns: Namespace): seq<string> {
    [PREFIX, ns.environment, ns.organization, ns.session]
  }

  /** Refused without parts, or with an empty one. */
  function KeyFor(ns: Namespace, parts: seq<string>): Option<string> {
    if parts == [] || exists i :: 0 <= i < |parts| && parts[i] == "" then None
    else Some(Join(Scope(ns) + parts))
  }

  predicate ColonFree(s: string) {
    ':' !in s
  }

  lemma FirstFieldUnique(a: string, x: string, b: string, y: string)
    requires ColonFree(a) && ColonFree(b) && Field(a, x) == Field(b, y)
    ensures a == b && x == y
  {
    var s := Field(a, x);
    assert s[|a|] == ':' && s[|b|] == ':';
    SameLengthFields(a, x, b, y);
  }

  lemma SameLengthFields(a: string, x: string, b: string, y: string)
    requires |a| == |b| && Field(a, x) == Field(b, y)
    ensures a == b && x == y
  {
    var s := Field(a, x);
    assert a == s[..|a|] && b == s[..|a|];
    assert x == s[|a| + 1..] && y == s[|a| + 1..];
  }

  /** A key spelled out. */
  lemma KeyIs(ns: Namespace, part: string)
    requires part != ""
    ensures KeyFor(ns, [part]) ==
      Some("deceptiforge:judge" + ":" + (ns.environment + ":" + (ns.organization + ":" + (ns.session + ":" + part))))
  {
    ScopedKey(ns, [part]);
  }

  lemma JoinFirst(first: string, rest: seq<string>)
    requires rest != []
    ensures Join([first] + rest) == Field(first, Join(rest))
  {
    assert ([first] + rest)[1..] == rest;
  }

  lemma ScopedKey(ns: Namespace, parts: seq<string>)
    requires parts != []
    ensures Join(Scope(ns) + parts) ==
      Field(PREFIX, Field(ns.environment, Field(ns.organization, Field(ns.session, Join(parts)))))
  {
    hide Field, Join, PREFIX;
    var p3 := [ns.session] + parts;
    var p2 := [ns.organization] + p3;
    var p1 := [ns.environment] + p2;
    assert [PREFIX] + p1 == Scope(ns) + parts;
    JoinFirst(PREFIX, p1);
    JoinFirst(ns.environment, p2);
    JoinFirst(ns.organization, p3);
    JoinFirst(ns.session, parts);
  }

  ghost predicate WellFormed(ns: Namespace) {
    ColonFree(ns.environment) && ColonFree(ns.organization) && ColonFree(ns.session)
  }

  /** The environment names the settings accept. */
  const DEPLOYMENT_MODES := {"development", "test", "judge", "staging", "production"}

  lemma DeploymentModesAreColonFree(environment: string)
    requires environment in DEPLOYMENT_MODES
    ensures ColonFree(environment)
  {
  }

  /** No two sessions, organizations or environments can produce the same key, whatever parts they use;
      and within a session two keys coincide exactly when their joined parts do. */
  lemma KeysNeverCollide(ns: Namespace, parts: seq<string>, ns': Namespace, parts': seq<string>)
    requires WellFormed(ns) && WellFormed(ns')
    requires KeyFor(ns, parts).Some? && KeyFor(ns', parts').Some?
    ensures KeyFor(ns, parts) == KeyFor(ns', parts') <==> ns == ns' && Join(parts) == Join(parts')
  {
    hide Field, Join;
    ScopedKey(ns, parts);
    ScopedKey(ns', parts');
    if KeyFor(ns, parts) == KeyFor(ns', parts') {
      var session, session' := Field(ns.session, Join(parts)), Field(ns'.session, Join(parts'));
      var organization, organization' := Field(ns.organization, session), Field(ns'.organization, session');
      SameLengthFields(PREFIX, Field(ns.environment, organization), PREFIX, Field(ns'.environment, organization'));
      FirstFieldUnique(ns.environment, organization, ns'.environment, organization');
      FirstFieldUnique(ns.organization, session, ns'.organization, session');
      FirstFieldUnique(ns.session, Join(parts), ns'.session, Join(parts'));
    }
  }

  lemma {:induction false} JoinIsInjective(parts: seq<string>, parts': seq<string>)
    requires parts != [] && parts' != []
    requires forall i :: 0 <= i < |parts| ==> ColonFree(parts[i])
    requires forall i :: 0 <= i < |parts'| ==> ColonFree(parts'[i])
    requires Join(parts) == Join(parts')
    ensures parts == parts'
  {
    if |parts| > 1 && |parts'| > 1 {
      FirstFieldUnique(parts[0], Join(parts[1..]), parts'[0], Join(parts'[1..]));
      JoinIsInjective(parts[1..], parts'[1..]);
      assert parts == [parts[0]] + parts[1..] && parts' == [parts'[0]] + parts'[1..];
    } else {
      FieldHasColon(parts);
      FieldHasColon(parts');
    }
  }

  lemma FieldHasColon(parts: seq<string>)
    requires parts != []
    ensures |parts| > 1 ==> ':' in Join(parts)
  {
    if |parts| > 1 {
      assert Join(parts)[|parts[0]|] == ':';
    }
  }

  /** Parts are copied verbatim: colon-free parts can be read back, but a part with a colon in it has the
      key of the two parts around that colon. */
  lemma ColonInPartAliases(ns: Namespace, left: string, right: string)
    requires left != "" && right != ""
    ensures KeyFor(ns, [left + ":" + right]) == KeyFor(ns, [left, right]) && KeyFor(ns, [left, right]).Some?
  {
    ScopedKey(ns, [left + ":" + right]);
    ScopedKey(ns, [left, right]);
    assert [left, right][1..] == [right];
  }

  /** The key itself does not guard against colons: an environment that spelled out another session's scope
      would share keys with it. It is the settings that admit no such environment. */
  lemma ColonInEnvironmentAliases(ns: Namespace, org: string, session: string, part: string)
    requires org != "" && session != "" && part != ""
    ensures KeyFor(Namespace(Field(ns.environment, Field(ns.organization, ns.session)), org, session), [part])
      == KeyFor(ns, [org, session, part])
  {
    var other := Namespace(Field(ns.environment, Field(ns.organization, ns.session)), org, session);
    ScopedKey(ns, [org, session, part]);
    ScopedKey(other, [part]);
    assert [org, session, part][1..] == [session, part] && [session, part][1..] == [part];
    var tail := Field(org, Field(session, part));
    FieldAssociates(ns.environment, Field(ns.organization, ns.session), tail);
    FieldAssociates(ns.organization, ns.session, tail);
  }

  lemma FieldAssociates(a: string, b: string, c: string)
    ensures Field(Field(a, b), c) == Field(a, Field(b, c))
  {
  }
}
