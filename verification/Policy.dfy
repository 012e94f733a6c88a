/**
  The policy evaluator: grants and revokes on wildcard path patterns, of which the deepest matching
  ones decide. The entries are held in maps, so they are looked at in no particular order.
 */
module Policy {
  import opened Wrappers

  // ---- paths ----

  /** `strings.Split(s, "/")`. */
  function Split(s: string): (parts: seq<string>)
    ensures parts != []
  {
    if s == "" then [""]
    else if s[0] == '/' then [""] + Split(s[1..])
    else var rest := Split(s[1..]); [[s[0]] + rest[0]] + rest[1..]
  }

  /** `strings.Join(parts, "/")`. */
  function Join(parts: seq<string>): string {
    if parts == [] then "" else if |parts| == 1 then parts[0] else parts[0] + "/" + Join(parts[1..])
  }

  predicate SlashFree(parts: seq<string>) { forall i | 0 <= i < |parts| :: '/' !in parts[i] }

  lemma {:induction false} SplitIsSlashFree(s: string)
    ensures SlashFree(Split(s))
  {
    if s != "" {
      SplitIsSlashFree(s[1..]);
    }
  }

  lemma {:induction false} SplitSegment(p: string, rest: string)
    requires '/' !in p
    ensures Split(p) == [p] && Split(p + "/" + rest) == [p] + Split(rest)
  {
    if p == "" {
      assert p + "/" + rest == "/" + rest && ("/" + rest)[1..] == rest;
    } else {
      SplitSegment(p[1..], rest);
      assert p[0] in p && p == [p[0]] + p[1..];
      assert (p + "/" + rest)[1..] == p[1..] + "/" + rest && (p + "/" + rest)[0] == p[0];
    }
  }

  /** Splitting undoes joining exactly when no segment has a slash in it. */
  lemma {:induction false} SplitJoin(parts: seq<string>)
    requires parts != []
    ensures Split(Join(parts)) == parts <==> SlashFree(parts)
  {
    if SlashFree(parts) {
      SplitJoinParts(parts);
    } else {
      SplitIsSlashFree(Join(parts));
    }
  }

  lemma {:induction false} SplitJoinParts(parts: seq<string>)
    requires parts != [] && SlashFree(parts)
    ensures Split(Join(parts)) == parts
  {
    assert '/' !in parts[0];
    if |parts| == 1 {
      SplitSegment(parts[0], "");
      assert parts == [parts[0]];
    } else {
      assert SlashFree(parts[1..]);
      SplitJoinParts(parts[1..]);
      SplitSegment(parts[0], Join(parts[1..]));
      assert parts == [parts[0]] + parts[1..];
    }
  }

  const SCHEME := "thing:/"

  function TrimPrefix(s: string): string { if SCHEME <= s then s[|SCHEME|..] else s }

  function Segments(path: string): (segments: seq<string>)
    ensures segments != []
  {
    Split(TrimPrefix(path))
  }

  /** `ResourcePath`, for an entity type that is already trimmed and in upper case. */
  function ResourcePath(tenantId: string, entityType: string, entityId: string, suffix: seq<string>): string {
    Join(["thing:", tenantId, entityType, entityId] + suffix)
  }

  /** The segments of a built path are what it was built from. */
  lemma ResourceSegments(tenantId: string, entityType: string, entityId: string, suffix: seq<string>)
    requires SlashFree([tenantId, entityType, entityId] + suffix)
    ensures Segments(ResourcePath(tenantId, entityType, entityId, suffix)) == [tenantId, entityType, entityId] + suffix
  {
    var inner := [tenantId, entityType, entityId] + suffix;
    assert (["thing:", tenantId, entityType, entityId] + suffix)[1..] == inner;
    assert ResourcePath(tenantId, entityType, entityId, suffix) == SCHEME + Join(inner);
    SplitJoinParts(inner);
  }

  // ---- matching ----

  /** The segments before the first `#`. */
  function BeforeHash(p: seq<string>): (head: seq<string>)
    ensures |head| <= |p|
  {
    if p == [] || p[0] == "#" then [] else [p[0]] + BeforeHash(p[1..])
  }

  predicate Covers(p: seq<string>, r: seq<string>) {
    |p| <= |r| && forall i | 0 <= i < |p| :: p[i] == "*" || p[i] == r[i]
  }

  /**
    The depth at which a pattern matches: with a `#`, what is before it must cover the start of the
    path; without, the whole pattern must, and one that ends on `*` must not leave anything over.
   */
  function Depth(p: seq<string>, r: seq<string>): Option<nat>
    requires p != []
  {
    if "#" in p then
      if Covers(BeforeHash(p), r) then Some(|BeforeHash(p)| + 1) else None
    else if Covers(p, r) && (p[|p| - 1] == "*" ==> |r| == |p|) then Some(|p|)
    else None
  }

  /** A `#` takes the rest of the path, even if there is none, and counts as a segment; a `*` takes one segment. */
  lemma MatchExamples()
    ensures Depth(["a", "#"], ["a"]) == Some(2) && Depth(["a", "#"], ["a", "b", "c"]) == Some(2)
    ensures Depth(["a", "*"], ["a"]) == None && Depth(["a", "*"], ["a", "b"]) == Some(2)
    ensures Depth(["a", "*"], ["a", "b", "c"]) == None && Depth(["*", "c"], ["a", "c", "d"]) == Some(2)
    ensures Depth(["a"], ["a", "b", "c"]) == Some(1) && Depth(["a", "b"], ["a"]) == None && Depth(["a"], ["b"]) == None
  {
    assert ["a", "#"][1..] == ["#"] && BeforeHash(["a", "#"]) == ["a"];
  }

  lemma {:induction false} BeforeHashIs(p: seq<string>, k: nat)
    requires k <= |p| && "#" !in p[..k]
    ensures k == |p| ==> BeforeHash(p) == p
    ensures k < |p| && p[k] == "#" ==> BeforeHash(p) == p[..k]
    ensures k <= |BeforeHash(p)| <= |p| && BeforeHash(p)[..k] == p[..k]
  {
    if k > 0 {
      assert p[0] == p[..k][0] && p[1..][..k - 1] == p[..k][1..];
      BeforeHashIs(p[1..], k - 1);
      assert p[..k] == [p[0]] + p[1..][..k - 1] && p == [p[0]] + p[1..];
    }
  }

  /** `matchResource`. */
  method MatchResource(pattern: string, resource: string) returns (depth: Option<nat>)
    ensures depth == Depth(Segments(pattern), Segments(resource))
  {
    var p, r := Segments(pattern), Segments(resource);
    for i := 0 to |p|
      invariant "#" !in p[..i] && i <= |r| && Covers(p[..i], r)
    {
      BeforeHashIs(p, i);
      if p[i] == "#" {
        return Some(i + 1);
      }
      if i >= |r| {
        NoCover(p, r, i);
        return None;
      }
      assert p[..i + 1] == p[..i] + [p[i]];
      if p[i] == "*" {
        continue;
      }
      if p[i] != r[i] {
        NoCover(p, r, i);
        return None;
      }
    }
    assert p[..|p|] == p;
    if p[|p| - 1] == "*" && |r| != |p| {
      return None;
    }
    return Some(|p|);
  }

  lemma NoCover(p: seq<string>, r: seq<string>, i: nat)
    requires i < |p| && "#" !in p[..i + 1]
    requires i >= |r| || (p[i] != "*" && p[i] != r[i])
    ensures Depth(p, r) == None
  {
    BeforeHashIs(p, i + 1);
    assert BeforeHash(p)[i] == p[..i + 1][i] == p[i];
  }

  /** A match extends to everything below the path exactly if the pattern has a `#` or does not end on `*`. */
  lemma MatchExtends(p: seq<string>, r: seq<string>, more: seq<string>)
    requires p != [] && more != [] && Depth(p, r).Some?
    ensures Depth(p, r + more) == if "#" in p || p[|p| - 1] != "*" then Depth(p, r) else None
  {
    if "#" in p {
      assert Covers(BeforeHash(p), r + more);
    } else if p[|p| - 1] != "*" {
      assert Covers(p, r + more);
    }
  }

  // ---- the decision ----

  type Entries = map<string, seq<string>>

  datatype DerivedPolicy = DerivedPolicy(subjects: seq<string>, grants: Entries, revokes: Entries)

  predicate Bound(subject: string, subjects: seq<string>) { subject != "" && ("*" in subjects || subject in subjects) }

  predicate Covered(actions: seq<string>, action: string) { "*" in actions || action in actions }

  function DepthAt(path: string, resource: string): Option<nat> { Depth(Segments(path), Segments(resource)) }

  /** Some entry matches deeper than `d`. */
  predicate Deeper(entries: Entries, resource: string, d: int) {
    exists path | path in entries :: DepthAt(path, resource).Some? && DepthAt(path, resource).value > d
  }

  /** Some entry matches at exactly `d` and covers the action. */
  predicate CoveredAt(entries: Entries, resource: string, d: nat, action: string) {
    exists path | path in entries :: DepthAt(path, resource) == Some(d) && Covered(entries[path], action)
  }

  /**
    The rule, without any order: there is a depth that some entry matches and none exceeds, at which a
    grant covers the action and no revoke does.
   */
  ghost predicate Authorized(subject: string, doc: DerivedPolicy, resource: string, action: string) {
    && Bound(subject, doc.subjects)
    && exists d: nat ::
         && !Deeper(doc.grants, resource, d) && !Deeper(doc.revokes, resource, d)
         && CoveredAt(doc.grants, resource, d, action) && !CoveredAt(doc.revokes, resource, d, action)
  }

  /** `actionCovered`. */
  method ActionCovered(actions: seq<string>, action: string) returns (covered: bool)
    ensures covered == Covered(actions, action)
  {
    for i := 0 to |actions|
      invariant !Covered(actions[..i], action)
    {
      if actions[i] == "*" || actions[i] == action {
        return true;
      }
      assert actions[..i + 1] == actions[..i] + [actions[i]];
    }
    assert actions[..|actions|] == actions;
    return false;
  }

  /** `subjectMatches`. */
  method SubjectMatches(subject: string, subjects: seq<string>) returns (bound: bool)
    ensures bound == Bound(subject, subjects)
  {
    if subject == "" {
      return false;
    }
    for i := 0 to |subjects|
      invariant !Bound(subject, subjects[..i])
    {
      if subjects[i] == "*" || subjects[i] == subject {
        return true;
      }
      assert subjects[..i + 1] == subjects[..i] + [subjects[i]];
    }
    assert subjects[..|subjects|] == subjects;
    return false;
  }

  /** `d` is reached by an entry, unless it is the starting value. */
  predicate Reached(entries: Entries, resource: string, from: int, d: int) {
    d == from || exists path | path in entries :: DepthAt(path, resource).Some? && DepthAt(path, resource).value == d
  }

  /** The deepest match among the entries, if it is deeper than `from`; the entries come in any order. */
  method Deepest(entries: Entries, resource: string, from: int) returns (deepest: int)
    ensures deepest >= from && !Deeper(entries, resource, deepest) && Reached(entries, resource, from, deepest)
  {
    deepest := from;
    var rest := entries.Keys;
    while rest != {}
      invariant rest <= entries.Keys && deepest >= from && Reached(entries, resource, from, deepest)
      invariant forall path | path in entries && path !in rest ::
                  DepthAt(path, resource).Some? ==> DepthAt(path, resource).value <= deepest
      decreases rest
    {
      var path :| path in rest;
      rest := rest - {path};
      var depth := MatchResource(path, resource);
      if depth.Some? && depth.value > deepest {
        deepest := depth.value;
      }
    }
  }

  /** Whether an entry at the given depth covers the action; the entries come in any order. */
  method AnyCovers(entries: Entries, resource: string, d: nat, action: string) returns (covers: bool)
    ensures covers == CoveredAt(entries, resource, d, action)
  {
    var rest := entries.Keys;
    while rest != {}
      invariant rest <= entries.Keys
      invariant forall path | path in entries && path !in rest ::
                  !(DepthAt(path, resource) == Some(d) && Covered(entries[path], action))
      decreases rest
    {
      var path :| path in rest;
      rest := rest - {path};
      var depth := MatchResource(path, resource);
      if depth == Some(d) {
        var covered := ActionCovered(entries[path], action);
        if covered {
          return true;
        }
      }
    }
    return false;
  }

  /**
    `Authorize`: whatever order the maps are iterated in, the result is the rule's. `normalise` is
    trimming and upper-casing, applied to the action that is asked for.
   */
  method Authorize(subject: string, doc: DerivedPolicy, resource: string, asked: string, normalise: string -> string)
    returns (ok: bool)
    ensures ok <==> Authorized(subject, doc, resource, normalise(asked))
  {
    var bound := SubjectMatches(subject, doc.subjects);
    if !bound {
      return false;
    }
    var action := normalise(asked);
    var deepest := Deepest(doc.grants, resource, -1);
    deepest := Deepest(doc.revokes, resource, deepest);
    DecidedAtTheDeepest(subject, doc, resource, action, deepest);
    if deepest < 0 {
      return false;
    }
    var revoked := AnyCovers(doc.revokes, resource, deepest, action);
    if revoked {
      return false;
    }
    ok := AnyCovers(doc.grants, resource, deepest, action);
  }

  /** No depth but the deepest match can satisfy the rule. */
  lemma DecidedAtTheDeepest(subject: string, doc: DerivedPolicy, resource: string, action: string, deepest: int)
    requires deepest >= -1 && !Deeper(doc.grants, resource, deepest) && !Deeper(doc.revokes, resource, deepest)
    requires Reached(doc.grants, resource, -1, deepest) || Reached(doc.revokes, resource, -1, deepest)
    ensures Authorized(subject, doc, resource, action) <==>
      Bound(subject, doc.subjects) && deepest >= 0 && CoveredAt(doc.grants, resource, deepest, action)
        && !CoveredAt(doc.revokes, resource, deepest, action)
  {
    forall d: nat | CoveredAt(doc.grants, resource, d, action) && !Deeper(doc.grants, resource, d)
      && !Deeper(doc.revokes, resource, d)
      ensures d == deepest
    {
    }
  }

  // ---- what changing a document can do ----

  /** `more` revokes at least what `some` revokes. */
  ghost predicate RevokesAsMuch(some: Entries, more: Entries) {
    forall path, a | path in some && a in some[path] :: path in more && a in more[path]
  }

  ghost predicate SamePaths(a: Entries, b: Entries) { a.Keys <= b.Keys }

  lemma MoreRevokes(some: Entries, more: Entries, resource: string, d: nat, action: string)
    requires SamePaths(some, more) && RevokesAsMuch(some, more)
    ensures Deeper(some, resource, d) ==> Deeper(more, resource, d)
    ensures CoveredAt(some, resource, d, action) ==> CoveredAt(more, resource, d, action)
  {
    if Deeper(some, resource, d) {
      var path :| path in some && DepthAt(path, resource).Some? && DepthAt(path, resource).value > d;
      assert path in more.Keys;
    }
    if CoveredAt(some, resource, d, action) {
      var path :| path in some && DepthAt(path, resource) == Some(d) && Covered(some[path], action);
      var a :| a in some[path] && (a == "*" || a == action);
      assert path in more && a in more[path];
    }
  }

  /** Adding revokes, as new entries or as further actions of old ones, never turns a deny into an allow. */
  lemma RevokeNeverAllows(subject: string, doc: DerivedPolicy, revokes: Entries, resource: string, action: string)
    requires SamePaths(doc.revokes, revokes) && RevokesAsMuch(doc.revokes, revokes)
    requires Authorized(subject, doc.(revokes := revokes), resource, action)
    ensures Authorized(subject, doc, resource, action)
  {
    var d: nat :| && !Deeper(doc.grants, resource, d) && !Deeper(revokes, resource, d)
                  && CoveredAt(doc.grants, resource, d, action) && !CoveredAt(revokes, resource, d, action);
    MoreRevokes(doc.revokes, revokes, resource, d, action);
  }

  /** The entries of `b` that match the path are those of `a`. */
  ghost predicate SameMatches(a: Entries, b: Entries, resource: string) {
    && (forall path | path in a && DepthAt(path, resource).Some? :: path in b && b[path] == a[path])
    && (forall path | path in b && DepthAt(path, resource).Some? :: path in a)
  }

  lemma OnlyMatchesCount(a: Entries, b: Entries, resource: string, d: nat, action: string)
    requires SameMatches(a, b, resource)
    ensures Deeper(a, resource, d) <==> Deeper(b, resource, d)
    ensures CoveredAt(a, resource, d, action) <==> CoveredAt(b, resource, d, action)
  {
  }

  /** Entries that do not match the path never matter. */
  lemma NonMatchingNeverMatters(subject: string, doc: DerivedPolicy, other: DerivedPolicy, resource: string,
                                action: string)
    requires doc.subjects == other.subjects
    requires SameMatches(doc.grants, other.grants, resource) && SameMatches(doc.revokes, other.revokes, resource)
    ensures Authorized(subject, doc, resource, action) <==> Authorized(subject, other, resource, action)
  {
    forall d: nat
      ensures Deeper(doc.grants, resource, d) <==> Deeper(other.grants, resource, d)
      ensures Deeper(doc.revokes, resource, d) <==> Deeper(other.revokes, resource, d)
      ensures CoveredAt(doc.grants, resource, d, action) <==> CoveredAt(other.grants, resource, d, action)
      ensures CoveredAt(doc.revokes, resource, d, action) <==> CoveredAt(other.revokes, resource, d, action)
    {
      OnlyMatchesCount(doc.grants, other.grants, resource, d, action);
      OnlyMatchesCount(doc.revokes, other.revokes, resource, d, action);
    }
  }

  /** Below a path, entries match as on the path itself, and no others do. */
  ghost predicate InheritedBelow(entries: Entries, resource: string, below: string) {
    forall path | path in entries :: DepthAt(path, below) == DepthAt(path, resource)
  }

  /** What holds for a path holds for everything below it that no other entry matches. */
  lemma DecisionIsInherited(subject: string, doc: DerivedPolicy, resource: string, below: string, action: string)
    requires InheritedBelow(doc.grants, resource, below) && InheritedBelow(doc.revokes, resource, below)
    ensures Authorized(subject, doc, resource, action) <==> Authorized(subject, doc, below, action)
  {
    forall d: nat
      ensures Deeper(doc.grants, resource, d) <==> Deeper(doc.grants, below, d)
      ensures Deeper(doc.revokes, resource, d) <==> Deeper(doc.revokes, below, d)
      ensures CoveredAt(doc.grants, resource, d, action) <==> CoveredAt(doc.grants, below, d, action)
      ensures CoveredAt(doc.revokes, resource, d, action) <==> CoveredAt(doc.revokes, below, d, action)
    {
    }
  }

  /** With a single grant and no revokes, what counts is whether the grant matches and covers the action. */
  lemma SingleGrant(subject: string, doc: DerivedPolicy, path: string, actions: seq<string>, resource: string,
                    action: string)
    requires doc.grants == map[path := actions] && doc.revokes == map[]
    ensures Authorized(subject, doc, resource, action) <==>
      Bound(subject, doc.subjects) && DepthAt(path, resource).Some? && Covered(actions, action)
  {
    assert path in doc.grants && doc.grants[path] == actions;
    if DepthAt(path, resource).Some? && Covered(actions, action) {
      var d := DepthAt(path, resource).value;
      assert CoveredAt(doc.grants, resource, d, action) && !Deeper(doc.grants, resource, d);
    }
  }

  /**
    One grant against one revoke: the deeper match decides. At equal depth the revoke wins for the actions it
    covers; a revoke that matches deeper denies even the actions it does not cover.
   */
  lemma GrantAgainstRevoke(subject: string, doc: DerivedPolicy, granted: string, actions: seq<string>,
                           revoked: string, denied: seq<string>, resource: string, action: string)
    requires doc.grants == map[granted := actions] && doc.revokes == map[revoked := denied]
    ensures var g, r := DepthAt(granted, resource), DepthAt(revoked, resource);
      Authorized(subject, doc, resource, action) <==>
        && Bound(subject, doc.subjects) && g.Some? && Covered(actions, action)
        && (r == None || r.value < g.value || (r == g && !Covered(denied, action)))
  {
    var g, r := DepthAt(granted, resource), DepthAt(revoked, resource);
    assert granted in doc.grants && doc.grants[granted] == actions;
    assert revoked in doc.revokes && doc.revokes[revoked] == denied;
    forall d: nat
      ensures CoveredAt(doc.grants, resource, d, action) <==> g == Some(d) && Covered(actions, action)
      ensures CoveredAt(doc.revokes, resource, d, action) <==> r == Some(d) && Covered(denied, action)
      ensures Deeper(doc.grants, resource, d) <==> g.Some? && g.value > d
      ensures Deeper(doc.revokes, resource, d) <==> r.Some? && r.value > d
    {
    }
    if g.Some? {
      assert CoveredAt(doc.grants, resource, g.value, action) <==> Covered(actions, action);
    }
  }

  /**
    A grant on a plain path is a grant on the tree below it. With `*` for its last segment it is a
    grant on that one level only.
   */
  lemma GrantOnATree(subject: string, doc: DerivedPolicy, tenant: string, kind: string, id: string, suffix: seq<string>,
                     actions: seq<string>, action: string)
    requires SlashFree([tenant, kind, id] + suffix) && "#" !in [tenant, kind, id] && "*" != id
    requires Bound(subject, doc.subjects) && Covered(actions, action) && doc.revokes == map[]
    ensures doc.grants == map[ResourcePath(tenant, kind, id, []) := actions] ==>
      Authorized(subject, doc, ResourcePath(tenant, kind, id, suffix), action)
    ensures doc.grants == map[ResourcePath(tenant, kind, "*", []) := actions] ==>
      (Authorized(subject, doc, ResourcePath(tenant, kind, id, suffix), action) <==> suffix == [])
  {
    var one, all := [tenant, kind, id], [tenant, kind, "*"];
    assert one + [] == one && all + [] == all;
    assert SlashFree(one) by {
      assert forall i | 0 <= i < 3 :: one[i] == (one + suffix)[i];
    }
    assert SlashFree(all) by {
      assert all[0] == one[0] && all[1] == one[1] && '/' !in "*";
    }
    ResourceSegments(tenant, kind, id, suffix);
    ResourceSegments(tenant, kind, id, []);
    ResourceSegments(tenant, kind, "*", []);
    assert Depth(one, one + suffix) == Some(3);
    assert Depth(all, one + suffix) == if suffix == [] then Some(3) else None;
    if doc.grants == map[ResourcePath(tenant, kind, id, []) := actions] {
      SingleGrant(subject, doc, ResourcePath(tenant, kind, id, []), actions, ResourcePath(tenant, kind, id, suffix),
                  action);
    }
    if doc.grants == map[ResourcePath(tenant, kind, "*", []) := actions] {
      SingleGrant(subject, doc, ResourcePath(tenant, kind, "*", []), actions, ResourcePath(tenant, kind, id, suffix),
                  action);
    }
  }
}
