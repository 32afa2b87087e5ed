/** Which metrics and labels are passed on (metrics/metrics.go). The radix tree is a map with a
    lookup of the longest prefix. */
module MetricFilter {
  import opened Wrappers

  datatype Tag = Tag(name: string, value: string)

  /** The longest prefix of key that is in the tree. */
  function LongestPrefix(tree: map<string, bool>, key: string): (p: Option<string>)
    ensures p.Some? ==> p.value <= key && p.value in tree
    ensures forall q | q <= key && q in tree :: p.Some? && |q| <= |p.value|
  {
    if key in tree then Some(key)
    else if key == "" then None
    else
      var front := key[..|key| - 1];
      assert forall q | q <= key && q in tree :: q <= front by { Shorter(tree, key); }
      LongestPrefix(tree, front)
  }

  lemma Shorter(tree: map<string, bool>, key: string)
    requires key != "" && key !in tree
    ensures forall q | q <= key && q in tree :: q <= key[..|key| - 1]
  {
    assert key[..|key|] == key;
    forall q | q <= key && q in tree ensures q <= key[..|key| - 1] {
      assert q == key[..|q|] == key[..|key| - 1][..|q|];
    }
  }

  function SetOf<T(==)>(s: seq<T>): set<T> {
    set x | x in s
  }

  /** p is a prefix of key in one of the lists, and no longer one is. */
  ghost predicate Decides(allow: seq<string>, block: seq<string>, key: string, p: string) {
    && p <= key && (p in allow || p in block)
    && forall q | q <= key && (q in allow || q in block) :: |q| <= |p|
  }

  class Metrics {
    const filterDefault: bool
    var filter: map<string, bool>
    var allowedLabels: Option<set<string>>
    var blockedLabels: set<string>

    constructor (filterDefault: bool)
      ensures this.filterDefault == filterDefault && filter == map[]
      ensures allowedLabels == None && blockedLabels == {}
    {
      this.filterDefault, filter, allowedLabels, blockedLabels := filterDefault, map[], None, {};
    }

    method UpdateFilterAndLabels(allow: seq<string>, block: seq<string>,
                                 allowedLabels: Option<seq<string>>, blockedLabels: seq<string>)
      modifies this
      ensures filter.Keys == SetOf(allow) + SetOf(block)
      ensures forall p | p in filter :: filter[p] <==> p !in block
      ensures this.allowedLabels == match allowedLabels case None => None case Some(l) => Some(SetOf(l))
      ensures this.blockedLabels == SetOf(blockedLabels)
    {
      this.allowedLabels := None;
      if allowedLabels.Some? {
        this.allowedLabels := Some(SetOf(allowedLabels.value));
      }
      this.blockedLabels := SetOf(blockedLabels);
      filter := map[];
      for i := 0 to |allow|
        invariant filter.Keys == SetOf(allow[..i]) && forall p | p in filter :: filter[p]
        invariant this.allowedLabels == match allowedLabels case None => None case Some(l) => Some(SetOf(l))
        invariant this.blockedLabels == SetOf(blockedLabels)
      {
        Front(allow, i);
        filter := filter[allow[i] := true];
      }
      Whole(allow);
      for i := 0 to |block|
        invariant filter.Keys == SetOf(allow) + SetOf(block[..i])
        invariant forall p | p in filter :: filter[p] <==> p !in block[..i]
        invariant this.allowedLabels == match allowedLabels case None => None case Some(l) => Some(SetOf(l))
        invariant this.blockedLabels == SetOf(blockedLabels)
      {
        Front(block, i);
        filter := filter[block[i] := false];
      }
      Whole(block);
    }

    /** With no rules or no matching prefix the default decides. */
    function AllowMetric(key: string): bool
      reads this
    {
      var p := LongestPrefix(filter, key);
      if p.None? then filterDefault else filter[p.value]
    }

    /** The longest matching prefix decides; one that is allowed and blocked is blocked. */
    lemma LongestDecides(allow: seq<string>, block: seq<string>, key: string)
      requires filter.Keys == SetOf(allow) + SetOf(block)
      requires forall p | p in filter :: filter[p] <==> p !in block
      ensures forall p | Decides(allow, block, key, p) :: AllowMetric(key) <==> p !in block
      ensures (forall p | p <= key :: p !in allow && p !in block) ==> AllowMetric(key) == filterDefault
    {
      var best := LongestPrefix(filter, key);
      forall p | Decides(allow, block, key, p) ensures AllowMetric(key) <==> p !in block {
        assert p in filter;
        assert p == key[..|p|] && best.value == key[..|best.value|];
      }
    }

    /** The allowed labels in their order, moved to the front of the caller's own slice. */
    method FilterLabels(tags: array<Tag>) returns (n: nat)
      modifies tags
      ensures n <= tags.Length
      ensures tags[..n] == Allowed(old(tags[..]), allowedLabels, blockedLabels)
      ensures forall t :: t in tags[..n] <==>
        t in old(tags[..]) && t.name !in blockedLabels && (allowedLabels.Some? ==> t.name in allowedLabels.value)
      ensures tags[n..] == old(tags[n..])
    {
      hide LabelIsAllowed, Allowed;
      ghost var all := tags[..];
      n := 0;
      NoneAllowed(allowedLabels, blockedLabels);
      for i := 0 to tags.Length
        invariant n <= i && |all| == tags.Length
        invariant tags[..n] == Allowed(all[..i], allowedLabels, blockedLabels)
        invariant tags[n..] == all[n..]
      {
        AllowedNext(all, i, allowedLabels, blockedLabels);
        Same(tags[..], all, n, i);
        var tag := tags[i];
        if LabelIsAllowed(tag, allowedLabels, blockedLabels) {
          tags[n] := tag;
          n := n + 1;
          assert tags[..n] == tags[..n - 1] + [tag];
        }
      }
      assert all[..tags.Length] == all;
      AllowedAre(all, allowedLabels, blockedLabels);
    }
  }

  predicate LabelIsAllowed(tag: Tag, allowed: Option<set<string>>, blocked: set<string>) {
    tag.name !in blocked && (allowed.Some? ==> tag.name in allowed.value)
  }

  function Allowed(tags: seq<Tag>, allowed: Option<set<string>>, blocked: set<string>): (r: seq<Tag>)
    ensures forall t :: t in r <==> t in tags && LabelIsAllowed(t, allowed, blocked)
  {
    if tags == [] then []
    else
      var n := |tags| - 1;
      assert tags == tags[..n] + [tags[n]];
      Allowed(tags[..n], allowed, blocked) + (if LabelIsAllowed(tags[n], allowed, blocked) then [tags[n]] else [])
  }

  lemma AllowedAre(tags: seq<Tag>, allowed: Option<set<string>>, blocked: set<string>)
    ensures forall t :: t in Allowed(tags, allowed, blocked)
                        <==> t in tags && t.name !in blocked && (allowed.Some? ==> t.name in allowed.value)
  {}

  lemma NoneAllowed(allowed: Option<set<string>>, blocked: set<string>)
    ensures Allowed([], allowed, blocked) == []
  {}

  lemma AllowedNext(all: seq<Tag>, i: nat, allowed: Option<set<string>>, blocked: set<string>)
    requires i < |all|
    ensures Allowed(all[..i + 1], allowed, blocked)
            == Allowed(all[..i], allowed, blocked) + (if LabelIsAllowed(all[i], allowed, blocked) then [all[i]] else [])
  {
    assert all[..i + 1][..i] == all[..i];
  }

  lemma Same<T>(a: seq<T>, b: seq<T>, n: nat, i: nat)
    requires n <= i < |a| == |b| && a[n..] == b[n..]
    ensures a[i] == b[i] && a[n + 1..] == b[n + 1..]
  {
    assert a[i] == a[n..][i - n] && b[i] == b[n..][i - n];
    assert a[n + 1..] == a[n..][1..] && b[n + 1..] == b[n..][1..];
  }

  lemma Front<T>(s: seq<T>, i: nat)
    requires i < |s|
    ensures SetOf(s[..i + 1]) == SetOf(s[..i]) + {s[i]}
    ensures s[..i + 1] == s[..i] + [s[i]]
  {}

  lemma Whole<T>(s: seq<T>)
    ensures SetOf(s[..|s|]) == SetOf(s) && s[..|s|] == s
  {}
}
