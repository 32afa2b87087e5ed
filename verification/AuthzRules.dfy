/** What a sequence of Allow calls means (xhttp/authz/authz.go): the deepest configured node on
    the way to a path decides. */
module AuthzRules {

  /** A path as its segments; [] is the root "/". */
  type Path = seq<string>

  datatype AllowType = Any | AnyRole

  /** What a node of the tree grants: its flags and its named roles. */
  datatype Rule = Rule(allow: set<AllowType>, roles: set<string>)

  /** The nodes of a tree. */
  type Rules = map<Path, Rule>

  const NO_RULE := Rule({}, {})
  const GUEST := "guest"

  datatype Op =
    | Allow(path: string, roles: seq<string>)
    | AllowAny(path: string)
    | AllowAnyRole(path: string)

  predicate ValidPath(path: string) {
    |path| > 0 && path[0] == '/'
  }

  // ----- Segments of a path -----

  /** The end of the segment that starts at pos. */
  function SegmentEnd(path: string, pos: nat): (e: nat)
    requires pos <= |path|
    ensures pos <= e <= |path|
    ensures (forall i | pos <= i < e :: path[i] != '/') && (e < |path| ==> path[e] == '/')
    decreases |path| - pos
  {
    if pos < |path| && path[pos] != '/' then SegmentEnd(path, pos + 1) else pos
  }

  function SegmentsFrom(path: string, pos: nat): Path
    decreases |path| - pos
  {
    if pos >= |path| then []
    else var e := SegmentEnd(path, pos);
         [path[pos..e]] + SegmentsFrom(path, e + 1)
  }

  function Segments(path: string): Path {
    SegmentsFrom(path, 1)
  }

  // ----- The tree as a map from paths to rules -----

  /** All nodes on the way to p, without a rule where they are new. */
  function Grow(rules: Rules, p: Path): Rules {
    map q | q in rules.Keys + Prefixes(p) :: if q in rules then rules[q] else NO_RULE
  }

  function Prefixes(p: Path): set<Path> {
    set i | 0 <= i <= |p| :: p[..i]
  }

  function NamedRoles(roles: seq<string>): set<string> {
    set r | r in roles && r != ""
  }

  function Apply(rules: Rules, op: Op): Rules {
    var p := Segments(op.path);
    var g := Grow(rules, p);
    PrefixesOf(p, p);
    g[p := match op
           case Allow(_, roles) => g[p].(roles := g[p].roles + NamedRoles(roles))
           case AllowAny(_) => g[p].(allow := {Any})
           case AllowAnyRole(_) => g[p].(allow := g[p].allow + {AnyRole})]
  }

  function ApplyAll(rules: Rules, ops: seq<Op>): Rules {
    if ops == [] then rules
    else Apply(ApplyAll(rules, ops[..|ops| - 1]), ops[|ops| - 1])
  }

  lemma PrefixesOf(p: Path, q: Path)
    ensures q in Prefixes(p) <==> q <= p
  {
    if q <= p {
      assert p[..|q|] == q;
    }
  }

  lemma ShorterPrefixes(rules: Rules, p: Path)
    requires p !in rules && p != []
    ensures forall q | q <= p && q in rules :: q <= p[..|p| - 1]
  {
    forall q | q <= p && q in rules ensures q <= p[..|p| - 1] {
      assert p[..|q|] == q && p[..|p|] == p;
      assert p[..|p| - 1][..|q|] == q;
    }
  }

  /** The deepest node on the way to p. */
  function Deepest(rules: Rules, p: Path): (d: Path)
    ensures d <= p && (d in rules || d == [])
    ensures forall q | q <= p && q in rules :: |q| <= |d|
  {
    if p in rules || p == [] then p
    else
      var front := p[..|p| - 1];
      assert forall q | q <= p && q in rules :: q <= front by { ShorterPrefixes(rules, p); }
      Deepest(rules, front)
  }

  function RuleAt(rules: Rules, p: Path): Rule {
    if p in rules then rules[p] else NO_RULE
  }

  predicate IsNamed(role: string) {
    role != "" && role != GUEST
  }

  predicate Grants(rule: Rule, role: string) {
    Any in rule.allow || (IsNamed(role) && (AnyRole in rule.allow || role in rule.roles))
  }

  /** The decision of isAllowed. */
  predicate Allowed(rules: Rules, path: string, role: string) {
    Grants(RuleAt(rules, Deepest(rules, Segments(path))), role)
  }

  // ----- The declarative meaning of the calls -----

  /** q is on the way to a configured path. */
  predicate Configured(ops: seq<Op>, q: Path) {
    exists op | op in ops :: q <= Segments(op.path)
  }

  /** The call, made for path d itself, gives the role access. */
  predicate Gives(op: Op, d: Path, role: string) {
    && Segments(op.path) == d
    && match op
       case AllowAny(_) => true
       case AllowAnyRole(_) => IsNamed(role)
       case Allow(_, roles) => IsNamed(role) && role in roles
  }

  /** Some call for d itself gives the role access. */
  predicate GivenAt(ops: seq<Op>, d: Path, role: string) {
    exists op | op in ops :: Gives(op, d, role)
  }

  /** d is the longest prefix of p that is on the way to a configured path; the root when there
      is none. */
  ghost predicate DeepestConfigured(ops: seq<Op>, p: Path, d: Path) {
    && d <= p && (Configured(ops, d) || d == [])
    && forall q | q <= p && Configured(ops, q) :: |q| <= |d|
  }

  /** Access is granted exactly when some call for that longest prefix itself gives it. */
  ghost predicate Meaning(ops: seq<Op>, path: string, role: string) {
    exists d :: DeepestConfigured(ops, Segments(path), d) && GivenAt(ops, d, role)
  }

  // ----- The tree agrees with the meaning -----

  lemma {:induction false} NodesAreConfigured(ops: seq<Op>, q: Path)
    ensures q in ApplyAll(map[], ops) <==> Configured(ops, q)
  {
    if ops != [] {
      var n := |ops| - 1;
      NodesAreConfigured(ops[..n], q);
      PrefixesOf(Segments(ops[n].path), q);
      assert ops == ops[..n] + [ops[n]];
      assert Configured(ops, q) <==> Configured(ops[..n], q) || q <= Segments(ops[n].path);
    }
  }

  lemma GrowKeeps(rules: Rules, p: Path, d: Path)
    ensures RuleAt(Grow(rules, p), d) == RuleAt(rules, d)
  {}

  /** One call changes what its own node grants and nothing else. */
  lemma ApplyGrants(rules: Rules, op: Op, d: Path, role: string)
    ensures Grants(RuleAt(Apply(rules, op), d), role)
            <==> Grants(RuleAt(rules, d), role) || Gives(op, d, role)
  {}

  lemma {:induction false} GrantsExact(ops: seq<Op>, d: Path, role: string)
    ensures Grants(RuleAt(ApplyAll(map[], ops), d), role)
            <==> GivenAt(ops, d, role)
  {
    hide Apply, Gives;
    if ops == [] {
      assert !Grants(RuleAt(map[], d), role);
    } else {
      var n := |ops| - 1;
      GrantsExact(ops[..n], d, role);
      ApplyGrants(ApplyAll(map[], ops[..n]), ops[n], d, role);
      assert ops == ops[..n] + [ops[n]];
    }
  }

  lemma DeepestIsConfigured(ops: seq<Op>, p: Path)
    ensures DeepestConfigured(ops, p, Deepest(ApplyAll(map[], ops), p))
  {
    hide ApplyAll, Configured;
    var rules := ApplyAll(map[], ops);
    forall q ensures q in rules <==> Configured(ops, q) {
      NodesAreConfigured(ops, q);
    }
  }

  lemma DeepestUnique(ops: seq<Op>, p: Path, d: Path, e: Path)
    requires DeepestConfigured(ops, p, d) && DeepestConfigured(ops, p, e)
    ensures d == e
  {}

  /** After any sequence of calls the tree decides as the calls mean. */
  lemma TreeAgrees(ops: seq<Op>, path: string, role: string)
    ensures Allowed(ApplyAll(map[], ops), path, role) <==> Meaning(ops, path, role)
  {
    hide ApplyAll, Configured, GivenAt, DeepestConfigured, Grants;
    var p := Segments(path);
    var d := Deepest(ApplyAll(map[], ops), p);
    DeepestIsConfigured(ops, p);
    GrantsExact(ops, d, role);
    if Meaning(ops, path, role) {
      var e :| DeepestConfigured(ops, p, e) && GivenAt(ops, e, role);
      DeepestUnique(ops, p, d, e);
    }
  }

  /** The order of the calls does not matter, nor how often each is made. */
  lemma OrderIndependent(ops1: seq<Op>, ops2: seq<Op>, path: string, role: string)
    requires forall op :: op in ops1 <==> op in ops2
    ensures Allowed(ApplyAll(map[], ops1), path, role) <==> Allowed(ApplyAll(map[], ops2), path, role)
  {
    hide ApplyAll, Gives, Allowed, Configured;
    TreeAgrees(ops1, path, role);
    TreeAgrees(ops2, path, role);
    forall d ensures DeepestConfigured(ops1, Segments(path), d)
                     <==> DeepestConfigured(ops2, Segments(path), d)
    {
      SameConfigured(ops1, ops2);
    }
    assert forall d :: GivenAt(ops1, d, role) <==> GivenAt(ops2, d, role);
  }

  lemma SameConfigured(ops1: seq<Op>, ops2: seq<Op>)
    requires forall op :: op in ops1 <==> op in ops2
    ensures forall q :: Configured(ops1, q) <==> Configured(ops2, q)
  {}

  /** Several calls of Allow for one path are one call with all their roles. */
  lemma AllowIsCumulative(ops: seq<Op>, path: string, r1: seq<string>, r2: seq<string>,
                          request: string, role: string)
    ensures Allowed(ApplyAll(map[], ops + [Allow(path, r1), Allow(path, r2)]), request, role)
            <==> Allowed(ApplyAll(map[], ops + [Allow(path, r1 + r2)]), request, role)
  {
    hide ApplyAll, Allowed, DeepestConfigured;
    var a, b := ops + [Allow(path, r1), Allow(path, r2)], ops + [Allow(path, r1 + r2)];
    TreeAgrees(a, request, role);
    TreeAgrees(b, request, role);
    CumulativeGives(ops, path, r1, r2, role);
    forall d ensures DeepestConfigured(a, Segments(request), d) <==> DeepestConfigured(b, Segments(request), d) {
      CumulativeConfigured(ops, path, r1, r2, Segments(request), d);
    }
  }

  lemma CumulativeGives(ops: seq<Op>, path: string, r1: seq<string>, r2: seq<string>, role: string)
    ensures forall d :: GivenAt(ops + [Allow(path, r1), Allow(path, r2)], d, role)
                        <==> GivenAt(ops + [Allow(path, r1 + r2)], d, role)
  {
    var x, y, z := Allow(path, r1), Allow(path, r2), Allow(path, r1 + r2);
    forall d ensures GivenAt(ops + [x, y], d, role) <==> GivenAt(ops + [z], d, role) {
      assert Gives(z, d, role) <==> Gives(x, d, role) || Gives(y, d, role);
      assert x in ops + [x, y] && y in ops + [x, y] && z in ops + [z];
    }
  }

  lemma CumulativeConfigured(ops: seq<Op>, path: string, r1: seq<string>, r2: seq<string>, p: Path, d: Path)
    ensures DeepestConfigured(ops + [Allow(path, r1), Allow(path, r2)], p, d)
            <==> DeepestConfigured(ops + [Allow(path, r1 + r2)], p, d)
  {
    var x, y, z := Allow(path, r1), Allow(path, r2), Allow(path, r1 + r2);
    forall q ensures Configured(ops + [x, y], q) <==> Configured(ops + [z], q) {
      assert x in ops + [x, y] && z in ops + [z];
    }
  }

  /** A path on the way to a configured one, with no call of its own, is denied to everybody: it
      does not inherit what a shorter path grants. */
  lemma IntermediateDenies(ops: seq<Op>, path: string, role: string)
    requires Configured(ops, Segments(path))
    requires forall op | op in ops :: Segments(op.path) != Segments(path)
    ensures !Allowed(ApplyAll(map[], ops), path, role)
  {
    hide ApplyAll, Allowed, Configured, Segments;
    var p := Segments(path);
    TreeAgrees(ops, path, role);
    assert DeepestConfigured(ops, p, p);
    assert !GivenAt(ops, p, role);
    forall d | DeepestConfigured(ops, p, d) ensures !GivenAt(ops, d, role) {
      DeepestUnique(ops, p, p, d);
    }
  }

  /** Some call was made for d itself. */
  predicate HasOwnCall(ops: seq<Op>, d: Path) {
    exists op | op in ops :: Segments(op.path) == d
  }

  /** d is the longest prefix of p that a call was made for. */
  ghost predicate DeepestOwn(ops: seq<Op>, p: Path, d: Path) {
    && d <= p && HasOwnCall(ops, d)
    && forall q | q <= p && HasOwnCall(ops, q) :: |q| <= |d|
  }

  lemma OwnIsConfigured(ops: seq<Op>, d: Path, role: string)
    ensures HasOwnCall(ops, d) ==> Configured(ops, d)
    ensures GivenAt(ops, d, role) ==> HasOwnCall(ops, d)
  {}

  /** "This path and its children": what the nearest call above a path gives reaches the path
      exactly if no node lies in between, that is, if no longer prefix of the path is on the way to
      any configured path. Nothing else gives access. */
  lemma ChildrenInheritExactly(ops: seq<Op>, path: string, role: string, d: Path)
    requires DeepestOwn(ops, Segments(path), d)
    ensures Allowed(ApplyAll(map[], ops), path, role)
            <==> GivenAt(ops, d, role) && forall q | d < q <= Segments(path) :: !Configured(ops, q)
  {
    hide ApplyAll, Allowed, Configured, Segments, GivenAt, HasOwnCall;
    var p := Segments(path);
    TreeAgrees(ops, path, role);
    OwnIsConfigured(ops, d, role);
    if e :| DeepestConfigured(ops, p, e) && GivenAt(ops, e, role) {
      OwnIsConfigured(ops, e, role);
      assert e == d;
    }
    if forall q | d < q <= p :: !Configured(ops, q) {
      assert DeepestConfigured(ops, p, d);
    }
  }

  /** A path with no call for any of its prefixes is denied to everybody. */
  lemma NoCallDenies(ops: seq<Op>, path: string, role: string)
    requires forall q | q <= Segments(path) :: !HasOwnCall(ops, q)
    ensures !Allowed(ApplyAll(map[], ops), path, role)
  {
    hide ApplyAll, Allowed, Configured, Segments, GivenAt, HasOwnCall;
    TreeAgrees(ops, path, role);
    forall d | DeepestConfigured(ops, Segments(path), d) ensures !GivenAt(ops, d, role) {
      OwnIsConfigured(ops, d, role);
    }
  }

  // ----- Who gets access, by the role itself -----

  /** A call of AllowAny was made for the deepest configured node on the way to the path. */
  ghost predicate OpenToAll(ops: seq<Op>, path: string) {
    exists op | op in ops ::
      op.AllowAny? && DeepestConfigured(ops, Segments(path), Segments(op.path))
  }

  /** A call of AllowAnyRole, or of Allow with this role in its list, was made for that node. */
  ghost predicate OpenToRole(ops: seq<Op>, path: string, role: string) {
    exists op | op in ops ::
      && (op.AllowAnyRole? || (op.Allow? && role in op.roles))
      && DeepestConfigured(ops, Segments(path), Segments(op.path))
  }

  /** Access by roles: nobody in particular, that is no role or the role "guest", gets in only where
      AllowAny was called; every other role also where AllowAnyRole or an Allow that names it was. */
  lemma AccessExactly(ops: seq<Op>, path: string, role: string)
    ensures Allowed(ApplyAll(map[], ops), path, role)
            <==> OpenToAll(ops, path) || (role != "" && role != "guest" && OpenToRole(ops, path, role))
  {
    hide ApplyAll, Allowed, Configured, DeepestConfigured, Segments;
    TreeAgrees(ops, path, role);
  }

  // ----- The segments of a path -----

  /** A path is a list of segments, each behind a slash. */
  function PathOf(segments: seq<string>): string {
    if segments == [] then "" else "/" + segments[0] + PathOf(segments[1..])
  }

  lemma MiddleOf<T>(a: seq<T>, b: seq<T>, c: seq<T>, x: T)
    requires x !in b && (c != [] ==> c[0] == x)
    ensures var s, e := a + b + c, |a| + |b|;
      && |s| == e + |c| && s[|a|..e] == b && (e < |s| ==> s[e] == x)
      && forall i | |a| <= i < e :: s[i] != x
  {
    var s := a + b + c;
    assert forall i | |a| <= i < |a| + |b| :: s[i] == b[i - |a|];
  }

  lemma SegmentAt(path: string, pos: nat, e: nat, s: string)
    requires pos <= e <= |path| && path[pos..e] == s
    requires (forall i | pos <= i < e :: path[i] != '/') && (e < |path| ==> path[e] == '/')
    ensures SegmentsFrom(path, pos) == if pos == |path| then [] else [s] + SegmentsFrom(path, e + 1)
  {
    if pos < |path| {
      OneSegment(path, pos, e);
    }
  }

  /** The segments without an empty one at the end. */
  function Proper(segments: Path): Path {
    if segments != [] && segments[|segments| - 1] == "" then segments[..|segments| - 1] else segments
  }

  lemma ProperNext(s: string, more: Path)
    ensures Proper([s] + more) == if more == [] && s == "" then [] else [s] + Proper(more)
  {
    var all := [s] + more;
    if more != [] {
      assert all[|all| - 1] == more[|more| - 1];
      assert all[..|all| - 1] == [s] + more[..|more| - 1];
    }
  }

  lemma PathNext(before: string, s: string, more: Path)
    ensures before + PathOf([s] + more) == (before + "/") + s + PathOf(more)
    ensures PathOf(more) == "" <==> more == []
    ensures more != [] ==> PathOf(more)[0] == '/'
  {
    assert ([s] + more)[1..] == more;
  }

  lemma {:induction false} SegmentsBehind(before: string, segments: Path)
    requires segments != [] && forall s | s in segments :: '/' !in s
    ensures SegmentsFrom(before + PathOf(segments), |before| + 1) == Proper(segments)
    decreases |segments|
  {
    hide *;
    var s, more := segments[0], segments[1..];
    FirstAndRest(segments);
    PathNext(before, s, more);
    ProperNext(s, more);
    MiddleOf(before + "/", s, PathOf(more), '/');
    var path, pos := before + PathOf(segments), |before| + 1;
    assert |before + "/"| == pos;
    SegmentAt(path, pos, pos + |s|, s);
    if more != [] {
      SegmentsBehind(before + "/" + s, more);
    } else {
      PastEnd(path, pos + |s| + 1);
      NoProper();
    }
  }

  lemma PastEnd(path: string, pos: nat)
    requires pos >= |path|
    ensures SegmentsFrom(path, pos) == []
  {}

  lemma NoProper()
    ensures Proper([]) == []
  {}

  lemma FirstAndRest<T>(s: seq<T>)
    requires s != []
    ensures s == [s[0]] + s[1..] && s[0] in s && forall x | x in s[1..] :: x in s
  {}

  /** Access control is on whole segments: the segments of a path are what stands between its
      slashes; one slash at the end does not count. */
  lemma SegmentsExactly(segments: Path)
    requires segments != [] && forall s | s in segments :: '/' !in s
    ensures Segments(PathOf(segments)) == Proper(segments)
  {
    hide SegmentsFrom, PathOf;
    SegmentsBehind("", segments);
    Same(PathOf(segments));
  }

  lemma Same<T>(s: seq<T>)
    ensures [] + s == s
  {}

  lemma OneSegment(s: string, pos: nat, e: nat)
    requires pos < |s| && pos <= e <= |s| && (forall i | pos <= i < e :: s[i] != '/') && (e < |s| ==> s[e] == '/')
    ensures SegmentsFrom(s, pos) == [s[pos..e]] + SegmentsFrom(s, e + 1)
    ensures SegmentsFrom(s, |s| + 1) == []
  {
    assert SegmentEnd(s, pos) == e;
  }

  lemma TwoSegments(a: string, b: string)
    requires '/' !in a && '/' !in b && a != "" && b != ""
    ensures Segments("/" + a + "/" + b) == [a, b] && Segments("/" + a) == [a]
  {
    hide SegmentsFrom;
    var s, t := "/" + a + "/" + b, "/" + a;
    OneSegment(s, 1, |a| + 1);
    OneSegment(s, |a| + 2, |s|);
    OneSegment(t, 1, |t|);
    assert s[1..|a| + 1] == a && s[|a| + 2..|s|] == b && t[1..|t|] == a;
    Listed(a, b);
  }

  lemma Listed<T>(a: T, b: T)
    ensures [a] + ([b] + []) == [a, b] && [a] + [] == [a]
  {}

  /** A role that the root is open to loses a path when a deeper one is configured for others. */
  lemma DeeperRuleRevokes(a: string, b: string, role: string, other: string)
    requires '/' !in a && '/' !in b && a != "" && b != "" && IsNamed(role)
    ensures var open, deeper := Allow("/", [role]), Allow("/" + a + "/" + b, [other]);
      && Allowed(ApplyAll(map[], [open]), "/" + a, role)
      && !Allowed(ApplyAll(map[], [open, deeper]), "/" + a, role)
  {
    hide Segments, ApplyAll, Allowed, DeepestConfigured, GivenAt;
    var open, deeper := Allow("/", [role]), Allow("/" + a + "/" + b, [other]);
    TwoSegments(a, b);
    RootSegments();
    assert [a] == [a, b][..1];
    assert Configured([open, deeper], [a]) by { assert deeper in [open, deeper] && [a] <= [a, b]; }
    IntermediateDenies([open, deeper], "/" + a, role);
    TreeAgrees([open], "/" + a, role);
    OnlyRoot(open, [a], role);
  }

  lemma RootSegments()
    ensures Segments("/") == []
  {}

  lemma OnlyRoot(op: Op, p: Path, role: string)
    requires Segments(op.path) == [] && Gives(op, [], role)
    ensures DeepestConfigured([op], p, []) && GivenAt([op], [], role)
  {
    assert op in [op];
  }

  // ----- Walking one segment at a time -----

  lemma GrowRoot(rules: Rules)
    ensures Grow(rules, []) == rules[[] := RuleAt(rules, [])]
  {
    forall q: Path ensures q in Prefixes([]) <==> q == [] {
      PrefixesOf([], q);
    }
  }

  lemma GrowStep(rules: Rules, p: Path, s: string)
    ensures Grow(rules, p + [s]) == Grow(rules, p)[p + [s] := RuleAt(rules, p + [s])]
    ensures p + [s] in Grow(rules, p) <==> p + [s] in rules
    ensures p + [s] in rules ==> Grow(rules, p + [s]) == Grow(rules, p)
  {
    forall q: Path ensures q in Prefixes(p + [s]) <==> q in Prefixes(p) || q == p + [s] {
      PrefixesOf(p, q);
      PrefixesOf(p + [s], q);
    }
    PrefixesOf(p, p + [s]);
  }

  lemma DeepestIs(rules: Rules, p: Path, d: Path)
    requires d <= p && (d in rules || d == [])
    requires forall q | q <= p && q in rules :: |q| <= |d|
    ensures Deepest(rules, p) == d
  {}
}
