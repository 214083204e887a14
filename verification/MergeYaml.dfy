/** Deep merge of parsed configuration documents. */
module MergeYaml {
  import opened Models

  /** A parsed YAML or JSON value: a string-keyed map, or anything else (scalar, list, null, map with other keys). */
  datatype Node = Leaf(text: string) | Tree(entries: map<string, Node>)

  /** What storing src over dst gives: maps are merged key by key, anything else is replaced. */
  function Merge(dst: Node, src: Node): Node
    decreases src
  {
    if dst.Leaf? || src.Leaf? then src
    else
      Tree(map k | k in dst.entries.Keys + src.entries.Keys ::
             if k !in src.entries then dst.entries[k]
             else if k !in dst.entries then src.entries[k]
             else Merge(dst.entries[k], src.entries[k]))
  }

  lemma {:induction false} MergeTwice(d: Node, s: Node)
    ensures Merge(Merge(d, s), s) == Merge(d, s)
    decreases s
  {
    MergeSelf(s);
    if d.Tree? && s.Tree? {
      forall k | k in d.entries && k in s.entries
        ensures Merge(Merge(d.entries[k], s.entries[k]), s.entries[k]) == Merge(d.entries[k], s.entries[k])
      {
        MergeTwice(d.entries[k], s.entries[k]);
      }
      forall k | k in s.entries ensures Merge(s.entries[k], s.entries[k]) == s.entries[k] {
        MergeSelf(s.entries[k]);
      }
      assert Merge(Merge(d, s), s).entries == Merge(d, s).entries;
    }
  }

  lemma {:induction false} MergeSelf(s: Node)
    ensures Merge(s, s) == s
    decreases s
  {
    if s.Tree? {
      forall k | k in s.entries ensures Merge(s.entries[k], s.entries[k]) == s.entries[k] {
        MergeSelf(s.entries[k]);
      }
      assert Merge(s, s).entries == s.entries;
    }
  }

  /** Nothing of a survives under c: every key of a is a key of c, and where both hold maps, recursively. */
  predicate Covers(c: Node, a: Node)
    decreases a
  {
    a.Leaf? || c.Leaf? ||
    forall k | k in a.entries :: k in c.entries && Covers(c.entries[k], a.entries[k])
  }

  lemma {:induction false} CoveredMeansReplaced(a: Node, c: Node)
    ensures Covers(c, a) <==> Merge(a, c) == c
    decreases a
  {
    if a.Tree? && c.Tree? {
      forall k | k in a.entries && k in c.entries
        ensures Covers(c.entries[k], a.entries[k]) <==> Merge(a.entries[k], c.entries[k]) == c.entries[k]
      {
        CoveredMeansReplaced(a.entries[k], c.entries[k]);
      }
      var m := Merge(a, c);
      assert m.entries == c.entries <==> Covers(c, a) by {
        if m.entries == c.entries {
          forall k | k in a.entries ensures k in c.entries && Covers(c.entries[k], a.entries[k]) {
            assert k in m.entries && m.entries[k] == c.entries[k];
          }
        }
      }
    }
  }

  /** Some path is a map in a and c but not a map in b, and the map in c does not cover the one in a. */
  predicate Clash(a: Node, b: Node, c: Node)
    decreases a
  {
    a.Tree? && c.Tree? &&
    if b.Leaf? then !Covers(c, a)
    else exists k | k in a.entries && k in b.entries && k in c.entries ::
           Clash(a.entries[k], b.entries[k], c.entries[k])
  }

  /** The order in which two layers are folded in is irrelevant exactly when the middle layer hides no map of the
      bottom one that the top layer would only partly rewrite. */
  lemma {:induction false} MergeAssociativeIff(a: Node, b: Node, c: Node)
    ensures Merge(Merge(a, b), c) == Merge(a, Merge(b, c)) <==> !Clash(a, b, c)
    decreases a
  {
    CoveredMeansReplaced(a, c);
    if a.Tree? && b.Tree? && c.Tree? {
      forall k | k in a.entries && k in b.entries && k in c.entries
        ensures (Merge(Merge(a.entries[k], b.entries[k]), c.entries[k]) ==
                 Merge(a.entries[k], Merge(b.entries[k], c.entries[k]))) <==>
                !Clash(a.entries[k], b.entries[k], c.entries[k])
      {
        MergeAssociativeIff(a.entries[k], b.entries[k], c.entries[k]);
      }
      var l, r := Merge(Merge(a, b), c), Merge(a, Merge(b, c));
      if Clash(a, b, c) {
        var k :| k in a.entries && k in b.entries && k in c.entries && Clash(a.entries[k], b.entries[k], c.entries[k]);
        assert l.entries[k] != r.entries[k];
      } else {
        assert l.entries == r.entries;
      }
    }
  }

  /** The value at a path of keys. */
  function At(n: Node, path: seq<string>): Option<Node>
    decreases |path|
  {
    if path == [] then Some(n)
    else if n.Leaf? || path[0] !in n.entries then None
    else At(n.entries[path[0]], path[1..])
  }

  /** Following path in s runs into a missing key: s says nothing about the path or anything it lies under. */
  predicate Silent(s: Node, path: seq<string>)
    decreases |path|
  {
    path != [] && s.Tree? && (path[0] in s.entries ==> Silent(s.entries[path[0]], path[1..]))
  }

  /** A layer that is silent on a path leaves the value there alone; one that speaks about it decides it,
      unless both layers have maps there. */
  lemma {:induction false} MergeAt(d: Node, s: Node, path: seq<string>)
    ensures Silent(s, path) ==> At(s, path).None? && At(Merge(d, s), path) == At(d, path)
    ensures !Silent(s, path) && At(s, path).None? ==> At(Merge(d, s), path).None?
    ensures !Silent(s, path) && At(s, path).Some? ==>
              At(Merge(d, s), path) ==
              if At(d, path).Some? then Some(Merge(At(d, path).value, At(s, path).value)) else At(s, path)
    decreases |path|
  {
    if path != [] && s.Tree? && path[0] in s.entries {
      MergeAt(if d.Tree? && path[0] in d.entries then d.entries[path[0]] else Leaf(""), s.entries[path[0]], path[1..]);
    }
  }

  /** What a map entry holds: a value that is not a map, or a reference to another map object. */
  datatype Value = Scalar(text: string) | Sub(m: YamlMap)

  /** A string-keyed map object with nested map objects, updated in place. */
  class YamlMap {
    var entries: map<string, Value>
    ghost var Repr: set<object>
    ghost var tree: Node

    /** The objects below form a tree, and tree is the document they spell out. */
    ghost predicate Valid()
      reads this, Repr
      decreases Repr, 1
      ensures Valid() ==> this in Repr
    {
      && this in Repr
      && tree.Tree? && tree.entries.Keys == entries.Keys
      && (forall k | k in entries :: Spells(k))
      && (forall k, k' | k in entries && k' in entries && k != k' :: Under(k) !! Under(k'))
    }

    /** The value under k stands for the document's value there; a nested map lives among this map's own objects. */
    ghost predicate Spells(k: string)
      requires this in Repr && tree.Tree? && tree.entries.Keys == entries.Keys && k in entries
      reads this, Repr
      decreases Repr, 0
    {
      match entries[k]
      case Scalar(t) => tree.entries[k] == Leaf(t)
      case Sub(m) => m in Repr && m.Repr <= Repr && this !in m.Repr && m.Valid() && tree.entries[k] == m.tree
    }

    /** The objects of the nested map under k. */
    ghost function Under(k: string): set<object>
      reads this, if k in entries && entries[k].Sub? then {entries[k].m} else {}
    {
      if k in entries && entries[k].Sub? then entries[k].m.Repr else {}
    }

    constructor ()
      ensures Valid() && fresh(Repr) && tree == Tree(map[])
    {
      entries := map[];
      tree := Tree(map[]);
      Repr := {this};
    }

    /** dst[k] = v */
    method Put(k: string, v: Value, ghost n: Node)
      requires Valid()
      requires v.Scalar? ==> n == Leaf(v.text)
      requires v.Sub? ==> v.m.Valid() && v.m.tree == n && this !in v.m.Repr
      requires v.Sub? ==> forall k' | k' in entries && k' != k :: Under(k') !! v.m.Repr
      modifies this
      ensures Valid() && entries == old(entries)[k := v]
      ensures tree == Tree(old(tree).entries[k := n])
      ensures Repr == old(Repr) + Under(k) && Under(k) == if v.Sub? then v.m.Repr else {}
      ensures forall k' | k' in entries && k' != k :: Under(k') == old(Under(k'))
    {
      entries, tree, Repr := entries[k := v], Tree(tree.entries[k := n]), Repr + (if v.Sub? then v.m.Repr else {});
      forall k' | k' in entries ensures Spells(k') {
        assert k' != k ==> old(k' in entries && Spells(k'));
      }
      forall k' | k' in entries && k' != k ensures Under(k') == old(Under(k')) && Under(k') !! Under(k) {
        assert old(k' in entries && Spells(k'));
      }
    }

    /** dst[k] = MergeYAML(dst[k], src[k]) for two nested maps: the object under k stays and is updated. */
    method MergeUnder(k: string, sv: YamlMap)
      requires Valid() && k in entries && entries[k].Sub?
      requires sv.Valid() && this !in sv.Repr && forall k' | k' in entries :: Under(k') !! sv.Repr
      modifies this, entries[k].m.Repr
      ensures Valid() && entries == old(entries)
      ensures tree == Tree(old(tree).entries[k := Merge(old(tree).entries[k], sv.tree)])
      ensures Repr == old(Repr) + sv.Repr && Under(k) <= old(Under(k)) + sv.Repr
      ensures forall k' | k' in entries && k' != k :: Under(k') == old(Under(k'))
      decreases sv.tree, 3
    {
      assert Spells(k);
      var merged := MergeYAML(entries[k].m, sv);
      assert this !in merged.Repr && merged.Repr <= Repr + sv.Repr;
      assert Sub(merged) == entries[k];  // storing it back changes nothing
      tree, Repr := Tree(tree.entries[k := merged.tree]), Repr + sv.Repr;
      forall k' | k' in entries && k' != k ensures Spells(k') && Under(k') == old(Under(k')) {
        assert old(Spells(k'));
        assert old(Under(k') !! Under(k));
      }
      assert Spells(k);
    }
  }

  /** src folded into dst, nested maps in place, keys in any order; a nil dst gives src itself. The result shares
      the nested maps that only src had. */
  method MergeYAML(dst: YamlMap?, src: YamlMap) returns (r: YamlMap)
    requires src.Valid()
    requires dst != null ==> dst.Valid() && dst.Repr !! src.Repr
    modifies if dst == null then {} else dst.Repr
    ensures r == if dst == null then src else dst
    ensures r.Valid() && r.tree == if dst == null then src.tree else Merge(old(dst.tree), src.tree)
    ensures r.Repr <= (if dst == null then {} else old(dst.Repr)) + src.Repr
    decreases src.tree, 2
  {
    if dst == null {
      return src;
    }
    r := dst;
    var todo := src.entries.Keys;
    ghost var was := dst.tree.entries;
    ghost var repr := dst.Repr;
    FoldedNone(was, src.tree.entries);
    while todo != {}
      invariant todo <= src.entries.Keys
      invariant Merging(dst, src, was, repr, todo)
    {
      var k :| k in todo;
      MergeKey(dst, src, k, was, repr, todo);
      todo := todo - {k};
    }
    FoldedAll(was, src.tree.entries);
  }

  /** What holds between two keys of the loop: the keys not in todo are merged, and dst's nested maps use only
      objects it had and objects of src under the same key. */
  ghost predicate Merging(dst: YamlMap, src: YamlMap, was: map<string, Node>, repr: set<object>, todo: set<string>)
    reads dst, dst.Repr, src, src.Repr, set k | k in dst.entries && dst.entries[k].Sub? :: dst.entries[k].m
    reads set k | k in src.entries && src.entries[k].Sub? :: src.entries[k].m
  {
    && src.Valid() && dst.Valid()
    && dst in repr && repr !! src.Repr
    && dst.Repr <= repr + src.Repr
    && dst.tree == Folded(was, src.tree.entries, todo)
    && (forall k | k in dst.entries :: dst.Under(k) <= if k in todo then repr else repr + src.Under(k))
  }

  lemma Apart(dst: YamlMap, src: YamlMap, k: string, was: map<string, Node>, repr: set<object>, todo: set<string>)
    requires Merging(dst, src, was, repr, todo) && k in todo && k in src.entries
    ensures dst !in src.Under(k) && src.Under(k) <= src.Repr
    ensures forall k' | k' in dst.entries :: dst.Under(k') !! src.Under(k)
  {
    assert src.Spells(k);
    forall k' | k' in dst.entries ensures dst.Under(k') !! src.Under(k) {
      assert k' in src.entries && k' != k ==> src.Under(k') !! src.Under(k);
    }
  }

  twostate lemma SourceKept(src: YamlMap)
    requires old(src.Valid()) && unchanged(old(src.Repr))
    ensures src.Valid() && src.entries == old(src.entries) && src.tree == old(src.tree) && src.Repr == old(src.Repr)
    ensures forall k | k in src.entries :: src.Under(k) == old(src.Under(k))
  {
    forall k | k in src.entries ensures src.Under(k) == old(src.Under(k)) {
      assert old(src.Spells(k));
    }
  }

  method MergeKey(dst: YamlMap, src: YamlMap, k: string, ghost was: map<string, Node>, ghost repr: set<object>,
                  ghost todo: set<string>)
    requires Merging(dst, src, was, repr, todo) && todo <= src.entries.Keys && k in todo
    modifies repr
    ensures Merging(dst, src, was, repr, todo - {k})
    decreases src.tree, 1
  {
    if k in dst.entries && dst.entries[k].Sub? && src.entries[k].Sub? {
      DescendKey(dst, src, k, was, repr, todo);
    } else {
      StoreKey(dst, src, k, was, repr, todo);
    }
  }

  method DescendKey(dst: YamlMap, src: YamlMap, k: string, ghost was: map<string, Node>, ghost repr: set<object>,
                    ghost todo: set<string>)
    requires Merging(dst, src, was, repr, todo) && todo <= src.entries.Keys && k in todo
    requires k in dst.entries && dst.entries[k].Sub? && src.entries[k].Sub?
    modifies repr
    ensures dst.Valid() && src.Valid() && dst.entries == old(dst.entries) && src.entries == old(src.entries)
    ensures dst.Repr <= repr + src.Repr && src.Repr == old(src.Repr) && src.tree == old(src.tree)
    ensures dst.tree == Folded(was, src.tree.entries, todo - {k})
    ensures forall k' | k' in src.entries :: src.Under(k') == old(src.Under(k'))
    ensures forall k' | k' in dst.entries ::
              dst.Under(k') <= old(dst.Under(k')) + if k' == k then src.Under(k) else {}
    decreases src.tree, 0
  {
    Apart(dst, src, k, was, repr, todo);
    assert src.Spells(k) && dst.Spells(k);
    FoldedStep(was, src.tree.entries, todo, k);
    dst.MergeUnder(k, src.entries[k].m);
    SourceKept(src);
  }

  method StoreKey(dst: YamlMap, src: YamlMap, k: string, ghost was: map<string, Node>, ghost repr: set<object>,
                  ghost todo: set<string>)
    requires Merging(dst, src, was, repr, todo) && todo <= src.entries.Keys && k in todo
    requires k in dst.entries && dst.entries[k].Sub? ==> src.entries[k].Scalar?
    modifies dst
    ensures Merging(dst, src, was, repr, todo - {k})
  {
    Apart(dst, src, k, was, repr, todo);
    assert src.Spells(k);
    assert k in dst.entries ==> dst.Spells(k);
    FoldedStep(was, src.tree.entries, todo, k);
    dst.Put(k, src.entries[k], src.tree.entries[k]);
    SourceKept(src);
  }

  /** src folded into dst for the keys not in todo. */
  function Folded(dst: map<string, Node>, src: map<string, Node>, todo: set<string>): Node {
    Tree(map k | k in dst.Keys + (src.Keys - todo) ::
           if k !in src || k in todo then dst[k]
           else if k !in dst then src[k]
           else Merge(dst[k], src[k]))
  }

  lemma FoldedNone(dst: map<string, Node>, src: map<string, Node>)
    ensures Folded(dst, src, src.Keys) == Tree(dst)
  {
    assert Folded(dst, src, src.Keys).entries == dst;
  }

  lemma FoldedAll(dst: map<string, Node>, src: map<string, Node>)
    ensures Folded(dst, src, {}) == Merge(Tree(dst), Tree(src))
  {
    assert Folded(dst, src, {}).entries == Merge(Tree(dst), Tree(src)).entries;
  }

  lemma FoldedStep(dst: map<string, Node>, src: map<string, Node>, todo: set<string>, k: string)
    requires k in todo && k in src
    ensures k in Folded(dst, src, todo).entries <==> k in dst
    ensures k in dst ==> Folded(dst, src, todo).entries[k] == dst[k]
    ensures Folded(dst, src, todo - {k})
         == Tree(Folded(dst, src, todo).entries[k := if k in dst then Merge(dst[k], src[k]) else src[k]])
  {
    assert Folded(dst, src, todo - {k}).entries
        == Folded(dst, src, todo).entries[k := if k in dst then Merge(dst[k], src[k]) else src[k]];
  }
}
