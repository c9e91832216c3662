/** The trie of blocked names over reversed canonical labels. */
module RadixTree {
  import opened Basics
  import opened DomainNames

  /** The canonical labels of a name, top level first. */
  function Path(labels: seq<Label>): (p: seq<Label>)
    ensures |p| == |labels|
  {
    seq(|labels|, k requires 0 <= k < |labels| => Lower(labels[|labels| - 1 - k]))
  }

  /** Being under a parent is having its path as a prefix. */
  lemma UnderIsPrefix(labels: seq<Label>, parent: seq<Label>)
    ensures IsUnder(labels, parent) <==> Path(parent) <= Path(labels)
  {
    if |parent| <= |labels| {
      var tail := labels[|labels| - |parent|..];
      if IsUnder(labels, parent) {
        forall k | 0 <= k < |parent| ensures Path(parent)[k] == Path(labels)[k] {
          assert LowerAll(tail)[|parent| - 1 - k] == LowerAll(parent)[|parent| - 1 - k];
        }
      }
      if Path(parent) <= Path(labels) {
        forall k | 0 <= k < |parent| ensures LowerAll(tail)[k] == LowerAll(parent)[k] {
          assert Path(parent)[|parent| - 1 - k] == Path(labels)[|parent| - 1 - k];
        }
      }
    }
  }

  lemma AppendInjective<T>(q: seq<T>, m: T, p: seq<T>, l: T)
    requires q + [m] == p + [l]
    ensures q == p && m == l
  {
    assert |q + [m]| == |p + [l]|;
    assert q == (q + [m])[..|q|] && p == (p + [l])[..|q|];
    assert (q + [m])[|q|] == (p + [l])[|q|];
  }

  class TrieNode {
    var children: map<seq<Byte>, TrieNode>
    var isEnd: bool

    constructor ()
      ensures children == map[] && !isEnd
    {
      children := map[];
      isEnd := false;
    }
  }

  class Tree {
    const root: TrieNode
    /** Every node, by the path that leads to it. */
    ghost var nodes: map<seq<Label>, TrieNode>
    /** The paths that end a rule. */
    ghost var rules: set<seq<Label>>

    ghost predicate Shaped()
      reads this, nodes.Values
    {
      && [] in nodes && nodes[[]] == root
      && (forall p, q {:trigger nodes[p], nodes[q]} :: p in nodes && q in nodes && nodes[p] == nodes[q] ==> p == q)
      && (forall p, l {:trigger l in nodes[p].children} :: p in nodes && l in nodes[p].children ==>
            p + [l] in nodes && nodes[p + [l]] == nodes[p].children[l])
      && (forall p, l {:trigger p + [l] in nodes} :: p + [l] in nodes ==> p in nodes && l in nodes[p].children)
    }

    ghost predicate Valid()
      reads this, nodes.Values
    {
      && Shaped()
      && (forall p :: p in nodes ==> (nodes[p].isEnd <==> p in rules))
      && rules <= nodes.Keys
    }

    constructor ()
      ensures Valid() && rules == {} && fresh(nodes.Values)
    {
      var r := new TrieNode();
      root := r;
      nodes := map[[] := r];
      rules := {};
    }

    lemma {:induction false} PrefixesExist(p: seq<Label>, k: nat)
      requires Valid() && p in nodes && k <= |p|
      ensures p[..k] in nodes
      decreases |p| - k
    {
      if k == |p| {
        assert p[..k] == p;
      } else {
        PrefixesExist(p, k + 1);
        assert p[..k + 1] == p[..k] + [p[k]];
      }
    }

    /** Some rule is a proper ancestor-or-self of the path: a non-empty prefix of
        it ends a rule, or both are the root. */
    ghost predicate Covers(path: seq<Label>)
      reads this
    {
      || (exists k :: 1 <= k <= |path| && path[..k] in rules)
      || (path == [] && [] in rules)
    }

    method Search(n: DomainName) returns (r: bool)
      requires Valid() && ValidName(n)
      ensures r <==> Covers(Path(n.labels))
    {
      ghost var path := Path(n.labels);
      var current := root;
      var left := |n.labels|;
      ghost var k := 0;
      while left > 0
        invariant 0 <= left <= |n.labels| && k == |path| - left
        invariant path[..k] in nodes && current == nodes[path[..k]]
        invariant forall j :: 1 <= j <= k ==> path[..j] !in rules
      {
        var l := CanonicalLabel(n, left - 1);
        assert l == path[k] && path[..k + 1] == path[..k] + [l];
        if l !in current.children {
          NoneBelow(path, k);
          return false;
        }
        current := current.children[l];
        left := left - 1;
        k := k + 1;
        if current.isEnd {
          return true;
        }
      }
      assert path[..k] == path;
      r := current.isEnd;
    }

    lemma PrefixStep(path: seq<Label>, j: nat, k: nat)
      requires Valid() && k < j <= |path|
      ensures path[..j] in rules ==> path[..k] + [path[k]] in nodes
    {
      if path[..j] in rules {
        PrefixesExist(path[..j], k + 1);
        assert path[..j][..k + 1] == path[..k] + [path[k]];
      }
    }

    lemma NoneBelow(path: seq<Label>, k: nat)
      requires Valid() && k < |path| && path[..k] in nodes && path[k] !in nodes[path[..k]].children
      ensures forall j :: k < j <= |path| ==> path[..j] !in rules
    {
      forall j | k < j <= |path| ensures path[..j] !in rules {
        PrefixStep(path, j, k);
      }
    }

    /** One step down, creating the child when it is missing. */
    method Descend(current: TrieNode, ghost p: seq<Label>, l: seq<Byte>) returns (child: TrieNode)
      requires Valid() && p in nodes && nodes[p] == current
      modifies this`nodes, current
      ensures Valid() && rules == old(rules) && old(nodes.Keys) <= nodes.Keys
      ensures p + [l] in nodes && nodes[p + [l]] == child
      ensures fresh(nodes.Values - old(nodes.Values))
      ensures forall q :: q in old(nodes) ==> nodes[q] == old(nodes[q])
    {
      if l in current.children {
        child := current.children[l];
      } else {
        child := new TrieNode();
        Attach(current, p, l, child);
      }
    }

    method Attach(current: TrieNode, ghost p: seq<Label>, l: seq<Byte>, child: TrieNode)
      requires Valid() && p in nodes && nodes[p] == current && l !in current.children
      requires child !in nodes.Values && child.children == map[] && !child.isEnd
      modifies this`nodes, current
      ensures Valid() && rules == old(rules) && nodes == old(nodes)[p + [l] := child]
    {
      ghost var path, before := p + [l], nodes;
      assert path !in nodes;
      current.children := current.children[l := child];
      nodes := nodes[path := child];
      forall q, m {:trigger q + [m] in nodes} | q + [m] in nodes ensures q in nodes && m in nodes[q].children {
        if q + [m] == path {
          AppendInjective(q, m, p, l);
        } else {
          assert q + [m] in before;
        }
      }
      forall q, m {:trigger m in nodes[q].children} | q in nodes && m in nodes[q].children
        ensures q + [m] in nodes && nodes[q + [m]] == nodes[q].children[m]
      {
        if q + [m] == path {
          AppendInjective(q, m, p, l);
        } else {
          assert q in before && (q == p ==> m != l);
        }
      }
      assert forall q :: q in nodes ==> q == path || q in before;
    }

    method Insert(n: DomainName) returns (newly: bool)
      requires Valid() && ValidName(n)
      modifies this, nodes.Values
      ensures Valid() && rules == old(rules) + {Path(n.labels)}
      ensures newly <==> Path(n.labels) !in old(rules)
      ensures fresh(nodes.Values - old(nodes.Values))
    {
      ghost var path := Path(n.labels);
      var current := root;
      var left := |n.labels|;
      ghost var k := 0;
      while left > 0
        invariant 0 <= left <= |n.labels| && k == |path| - left
        invariant Valid() && rules == old(rules)
        invariant path[..k] in nodes && current == nodes[path[..k]]
        invariant fresh(nodes.Values - old(nodes.Values))
      {
        var l := CanonicalLabel(n, left - 1);
        assert path[..k + 1] == path[..k] + [l];
        current := Descend(current, path[..k], l);
        left := left - 1;
        k := k + 1;
      }
      assert path[..k] == path;
      newly := MarkEnd(current, path);
    }

    /** The node of `path` becomes the end of a rule. */
    method MarkEnd(current: TrieNode, ghost path: seq<Label>) returns (newly: bool)
      requires Valid() && path in nodes && nodes[path] == current
      modifies this`rules, current`isEnd
      ensures Valid() && rules == old(rules) + {path} && (newly <==> path !in old(rules))
    {
      newly := !current.isEnd;
      current.isEnd := true;
      rules := rules + {path};
    }
  }
}
