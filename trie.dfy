/** The prefix tree behind `stringIn` (`Core/Trie.swift`): nodes with a `children` dictionary,
    an `isTerminating` flag and the `original` payload stored at the end of each word. */
module Tries {
  import opened Options

  /** Appending one element is injective. */
  lemma AppendOneInjective<T>(a: seq<T>, x: T, b: seq<T>, y: T)
    requires a + [x] == b + [y]
    ensures a == b && x == y
  {
    assert a == (a + [x])[..|a|];
    assert b == (b + [y])[..|b|];
    assert x == (a + [x])[|a|];
  }

  /** Extending a slice by the element after it. */
  lemma SliceExtend<T>(s: seq<T>, index: nat, i: nat)
    requires index <= i < |s|
    ensures s[index..i + 1] == s[index..i] + [s[i]]
  {
    assert s[index..i + 1] == s[index..i] + [s[i]];
  }

  /** A proper prefix `q` of `v` extended by the next element of `v` is still a prefix of `v`. */
  lemma NextOnTheWay<T>(q: seq<T>, v: seq<T>)
    requires q < v
    ensures q + [v[|q|]] <= v
  {
    assert q + [v[|q|]] == v[..|q| + 1];
  }

  /** A proper subset is smaller. */
  lemma ProperSubsetSmaller<X>(a: set<X>, b: set<X>)
    requires a < b
    ensures |a| < |b|
  {
    assert b == a + (b - a);
    assert a * (b - a) == {};
  }

  /** Extending a prefix by the element after it. */
  lemma TakeExtend<T>(w: seq<T>, j: nat)
    requires j < |w|
    ensures w[..j + 1] == w[..j] + [w[j]]
  {
    assert w[..j + 1] == w[..j] + [w[j]];
  }

  /** The end of the shortest word of `words` that starts at `index`, ends after `n - 1` and
      ends by `end`; the answer of a walk that stops at the first terminating node. */
  function ShortestWordEnd<T(==), O>(words: map<seq<T>, O>, s: seq<T>, index: nat, end: int, n: nat): (r: Option<nat>)
    requires index < n && end <= |s|
    decreases |s| - n
    ensures r.Some? ==> n <= r.value <= end && s[index..r.value] in words
  {
    if n > end then None
    else if s[index..n] in words then Some(n)
    else ShortestWordEnd(words, s, index, end, n + 1)
  }

  /** `ShortestWordEnd` finds exactly the first end from `n` on at which a word stops, and
      nothing when there is no such end. */
  lemma {:induction false} ShortestWordEndIff<T, O>(words: map<seq<T>, O>, s: seq<T>, index: nat, end: int, n: nat, m: nat)
    requires index < n && end <= |s|
    decreases |s| - n
    ensures ShortestWordEnd(words, s, index, end, n) == Some(m) <==>
      n <= m <= end && s[index..m] in words && forall k | n <= k < m :: s[index..k] !in words
    ensures ShortestWordEnd(words, s, index, end, n) == None <==>
      forall k | n <= k <= end :: s[index..k] !in words
  {
    if n <= end && s[index..n] !in words {
      ShortestWordEndIff(words, s, index, end, n + 1, m);
    }
  }

  /** A word that ends at `i`, with no word ending between `index` and `i`, is the shortest. */
  lemma FirstEndAt<T, O>(words: map<seq<T>, O>, s: seq<T>, index: nat, end: int, i: nat)
    requires index < i <= end <= |s| && s[index..i] in words
    requires forall k | index < k < i :: s[index..k] !in words
    ensures ShortestWordEnd(words, s, index, end, index + 1) == Some(i)
  {
    ShortestWordEndIff(words, s, index, end, index + 1, i);
  }

  /** With no word ending between `index` and `end`, there is no shortest word. */
  lemma NoEndBy<T, O>(words: map<seq<T>, O>, s: seq<T>, index: nat, end: int)
    requires end <= |s|
    requires forall k | index < k <= end :: s[index..k] !in words
    ensures ShortestWordEnd(words, s, index, end, index + 1) == None
  {
    ShortestWordEndIff(words, s, index, end, index + 1, 0);
  }

  /** The answer of a walk that stops at the first terminating node: the payload of the
      shortest word at `index` that ends by `end`, with its end. */
  function ShortestWord<T(==), O>(words: map<seq<T>, O>, s: seq<T>, index: nat, end: int): (r: Option<(O, nat)>)
    requires end <= |s|
    ensures r.None? <==> ShortestWordEnd(words, s, index, end, index + 1).None?
    ensures r.Some? ==> index < r.value.1 <= end && s[index..r.value.1] in words && r.value.0 == words[s[index..r.value.1]]
  {
    match ShortestWordEnd(words, s, index, end, index + 1)
    case None => None
    case Some(n) => Some((words[s[index..n]], n))
  }

  /** A word of `words` that no other word extends: a leaf of the trie. */
  predicate Maximal<T(==), O>(words: map<seq<T>, O>, w: seq<T>) {
    w in words && forall v | v in words :: !(w < v)
  }

  /** The end of the shortest maximal word that starts at `index` and ends after `n - 1`; the
      answer of a walk that stops at the first leaf. */
  function ShortestMaximalEnd<T(==), O>(words: map<seq<T>, O>, s: seq<T>, index: nat, n: nat): (r: Option<nat>)
    requires index < n
    decreases |s| - n
    ensures r.Some? ==> n <= r.value <= |s| && Maximal(words, s[index..r.value])
  {
    if n > |s| then None
    else if Maximal(words, s[index..n]) then Some(n)
    else ShortestMaximalEnd(words, s, index, n + 1)
  }

  /** The answer of a walk that stops at the first leaf: the payload of the shortest maximal
      word at `index`, with its end. */
  function ShortestMaximal<T(==), O>(words: map<seq<T>, O>, s: seq<T>, index: nat): (r: Option<(O, nat)>)
    ensures r.None? <==> ShortestMaximalEnd(words, s, index, index + 1).None?
    ensures r.Some? ==> index < r.value.1 <= |s| && Maximal(words, s[index..r.value.1]) && r.value.0 == words[s[index..r.value.1]]
  {
    match ShortestMaximalEnd(words, s, index, index + 1)
    case None => None
    case Some(n) => Some((words[s[index..n]], n))
  }

  /** `ShortestMaximalEnd` finds exactly the first end from `n` on at which a maximal word
      stops, and nothing when there is none. */
  lemma {:induction false} ShortestMaximalEndIff<T, O>(words: map<seq<T>, O>, s: seq<T>, index: nat, n: nat, m: nat)
    requires index < n
    decreases |s| - n
    ensures ShortestMaximalEnd(words, s, index, n) == Some(m) <==>
      n <= m <= |s| && Maximal(words, s[index..m]) && forall k | n <= k < m :: !Maximal(words, s[index..k])
    ensures ShortestMaximalEnd(words, s, index, n) == None <==>
      forall k | n <= k <= |s| :: !Maximal(words, s[index..k])
  {
    if n <= |s| && !Maximal(words, s[index..n]) {
      ShortestMaximalEndIff(words, s, index, n + 1, m);
    }
  }

  class TrieNode<T(==,!new), O> {
    var original: Option<O>
    var children: map<T, TrieNode<T, O>>
    var isTerminating: bool
    /** The elements leading from the root to this node. */
    ghost const path: seq<T>

    /** A fresh node: no payload, no children, not the end of a word. */
    constructor (ghost at: seq<T>)
      ensures original == None && children == map[] && !isTerminating && path == at
    {
      original := None;
      children := map[];
      isTerminating := false;
      path := at;
    }

    /** `isLeaf`: the node has no children. */
    function IsLeaf(): (b: bool)
      reads this
      ensures b <==> |children| == 0
    {
      |children| == 0
    }

    /** `addNode(value:)`: add a fresh child under `value` unless one is already there. */
    method AddNode(value: T, ghost childPath: seq<T>)
      modifies this`children
      ensures value in old(children) ==> children == old(children)
      ensures value !in old(children) ==>
        value in children && fresh(children[value]) && children == old(children)[value := children[value]] &&
        children[value].children == map[] && !children[value].isTerminating &&
        children[value].original == None && children[value].path == childPath
    {
      if value in children {
        return;
      }
      var child := new TrieNode(childPath);
      children := children[value := child];
    }
  }

  class Trie<T(==,!new), O> {
    const root: TrieNode<T, O>
    var wordCount: int
    /** The node reached from the root along each path. */
    ghost var nodeAt: map<seq<T>, TrieNode<T, O>>
    /** The abstraction: each inserted word and the payload stored for it. */
    ghost var words: map<seq<T>, O>
    ghost var Repr: set<TrieNode<T, O>>

    /** The node graph is a tree laid out by `nodeAt`: the root is at `[]`, each child sits at
        its parent's path plus its key, and each non-root node hangs from its parent. */
    ghost predicate Shape()
      reads this`Repr, this`nodeAt, nodeAt.Values`children
    {
      (forall q | q in nodeAt :: nodeAt[q] in Repr && nodeAt[q].path == q) &&
      Linked()
    }

    /** The root is at `[]` and the nodes are linked both ways. */
    ghost predicate Linked()
      reads this`nodeAt, nodeAt.Values`children
    {
      [] in nodeAt && nodeAt[[]] == root && Downward() && Upward()
    }

    /** Each child of a node sits at the node's path plus the child's key. */
    ghost predicate Downward()
      reads this`nodeAt, nodeAt.Values`children
    {
      forall q, k | q in nodeAt && k in nodeAt[q].children ::
        q + [k] in nodeAt && nodeAt[q].children[k] == nodeAt[q + [k]]
    }

    /** Each node other than the root hangs from the node at its path without the last key. */
    ghost predicate Upward()
      reads this`nodeAt, nodeAt.Values`children
    {
      forall q, k | q + [k] in nodeAt :: q in nodeAt && k in nodeAt[q].children
    }

    /** The flags and payloads agree with `words`, and `wordCount` counts the words. */
    ghost predicate Marks()
      reads this`nodeAt, this`words, this`wordCount, nodeAt.Values`isTerminating, nodeAt.Values`original
    {
      [] !in words &&
      (forall q | q in nodeAt :: (nodeAt[q].isTerminating <==> q in words)) &&
      (forall w | w in words :: w in nodeAt && nodeAt[w].original == Some(words[w])) &&
      wordCount == |words|
    }

    /** No dead ends: every node other than the root ends a word or has a child, since nodes are
        only ever created by `insert` on the way to a word. */
    ghost predicate NoDeadEnds()
      reads this`nodeAt, this`words, nodeAt.Values`children
    {
      forall q | q in nodeAt && q != [] :: q in words || nodeAt[q].children != map[]
    }

    ghost predicate Valid()
      reads this, Repr, nodeAt.Values
    {
      Shape() && Marks() && NoDeadEnds()
    }

    /** `init()`: an empty trie. */
    constructor ()
      ensures Valid() && fresh(Repr)
      ensures words == map[] && wordCount == 0
    {
      var r := new TrieNode([]);
      root := r;
      wordCount := 0;
      nodeAt := map[[] := r];
      words := map[];
      Repr := {r};
    }

    /** `count`: the number of words. */
    function Count(): (n: int)
      reads this, Repr
      requires Valid()
      ensures n == |words|
    {
      wordCount
    }

    /** `isEmpty`: no word has been inserted. */
    function IsEmpty(): (b: bool)
      reads this, Repr
      requires Valid()
      ensures b <==> words == map[]
    {
      wordCount == 0
    }

    /** One step of `insert`: move from the node at `p` to its child under `elem`, creating the
        child (through `addNode`) when it is missing. */
    method Descend(node: TrieNode<T, O>, elements: seq<T>, j: nat) returns (child: TrieNode<T, O>)
      requires Shape() && Marks() && j < |elements| && elements[..j] in nodeAt && node == nodeAt[elements[..j]]
      modifies this`nodeAt, this`Repr, node`children
      ensures Shape() && Marks()
      ensures fresh(Repr - old(Repr))
      ensures elements[..j + 1] in nodeAt && child == nodeAt[elements[..j + 1]]
      ensures forall q :: q in nodeAt <==> q in old(nodeAt) || q == elements[..j + 1]
    {
      ghost var p := elements[..j];
      var elem := elements[j];
      TakeExtend(elements, j);
      if elem in node.children {
        child := node.children[elem];
        assert p + [elem] in nodeAt;
      } else {
        child := AddChild(node, p, elem);
        forall q | q in nodeAt
          ensures nodeAt[q].isTerminating <==> q in words
        {
          if q != p + [elem] {
            assert q in old(nodeAt);
          }
        }
        forall w | w in words
          ensures w in nodeAt && nodeAt[w].original == Some(words[w])
        {
          assert w in old(nodeAt) && w != p + [elem];
        }
      }
    }

    /** The `else` branch of a step of `insert`: `addNode` a missing child and record it. */
    method AddChild(node: TrieNode<T, O>, ghost p: seq<T>, elem: T) returns (child: TrieNode<T, O>)
      requires Shape() && p in nodeAt && node == nodeAt[p] && elem !in node.children
      modifies this`nodeAt, this`Repr, node`children
      ensures Shape()
      ensures fresh(Repr - old(Repr))
      ensures nodeAt == old(nodeAt)[p + [elem] := child] && p + [elem] !in old(nodeAt)
      ensures !child.isTerminating && child.original == None
    {
      ghost var at := p + [elem];
      assert at !in nodeAt;
      node.AddNode(elem, at);
      child := node.children[elem];
      nodeAt := nodeAt[at := child];
      Repr := Repr + {child};
      forall q | q in nodeAt
        ensures nodeAt[q] in Repr && nodeAt[q].path == q
      {
        if q != at {
          assert q in old(nodeAt);
        }
      }
      forall q, k | q in nodeAt && k in nodeAt[q].children
        ensures q + [k] in nodeAt && nodeAt[q].children[k] == nodeAt[q + [k]]
      {
        assert q != at;
        if q == p {
          if k != elem {
            assert k in old(node.children);
          }
        } else {
          assert nodeAt[q] != node;
          if q + [k] == at {
            AppendOneInjective(q, k, p, elem);
          }
        }
      }
      forall q, k | q + [k] in nodeAt
        ensures q in nodeAt && k in nodeAt[q].children
      {
        if q + [k] == at {
          AppendOneInjective(q, k, p, elem);
        } else {
          assert q + [k] in old(nodeAt);
        }
      }
    }

    /** The tail of `insert`: mark the node reached as the end of `w`, store the payload and
        count the new word. */
    method MarkEnd(node: TrieNode<T, O>, ghost w: seq<T>, original: O)
      requires Shape() && Marks() && w != [] && w in nodeAt && node == nodeAt[w] && !node.isTerminating
      modifies this, node
      ensures Shape() && Marks()
      ensures nodeAt == old(nodeAt) && Repr == old(Repr)
      ensures words == old(words)[w := original] && w !in old(words)
    {
      wordCount := wordCount + 1;
      node.isTerminating := true;
      node.original := Some(original);
      words := words[w := original];
      forall q, k | q in nodeAt && k in nodeAt[q].children
        ensures q + [k] in nodeAt && nodeAt[q].children[k] == nodeAt[q + [k]]
      {
        assert k in old(nodeAt[q].children);
      }
      forall q, k | q + [k] in nodeAt
        ensures q in nodeAt && k in nodeAt[q].children
      {
        assert old(q in nodeAt && k in nodeAt[q].children);
      }
      forall q | q in nodeAt
        ensures nodeAt[q].isTerminating <==> q in words
      {
        if q != w {
          assert nodeAt[q] != node;
        }
      }
      forall v | v in words
        ensures v in nodeAt && nodeAt[v].original == Some(words[v])
      {
        if v != w {
          assert v in old(words) && nodeAt[v] != node;
        }
      }
    }

    /** The walk of `insert`: follow `elements` from the root, adding every missing node, and
        return the node at the end of the walk. */
    method Walk(elements: seq<T>) returns (node: TrieNode<T, O>)
      requires Shape() && Marks()
      modifies this`nodeAt, this`Repr, Repr`children
      ensures Shape() && Marks() && fresh(Repr - old(Repr))
      ensures elements in nodeAt && node == nodeAt[elements]
      ensures forall q :: q in nodeAt <==> q in old(nodeAt) || q <= elements
    {
      node := root;
      for j := 0 to |elements|
        invariant Shape() && Marks()
        invariant fresh(Repr - old(Repr))
        invariant elements[..j] in nodeAt && node == nodeAt[elements[..j]]
        invariant forall q :: q in nodeAt <==> q in old(nodeAt) || (|q| <= j && q == elements[..|q|])
      {
        node := Descend(node, elements, j);
      }
      assert elements[..|elements|] == elements;
    }

    /** `insert(elements, original)`: walk down along `elements`, adding the missing nodes, and
        mark the last node as the end of a word unless it already is one (the first payload
        stays). An empty sequence is ignored. */
    method Insert(elements: seq<T>, original: O)
      requires Valid()
      modifies this, Repr
      ensures Valid() && fresh(Repr - old(Repr))
      ensures elements == [] || elements in old(words) ==> words == old(words) && wordCount == old(wordCount)
      ensures elements != [] && elements !in old(words) ==>
        words == old(words)[elements := original] && wordCount == old(wordCount) + 1
      ensures elements != [] ==> elements in nodeAt && nodeAt[elements].isTerminating
      ensures forall q :: q in nodeAt <==> q in old(nodeAt) || q <= elements
      ensures forall q | q in old(nodeAt) && q != elements :: nodeAt[q].isTerminating == old(nodeAt[q].isTerminating)
    {
      if |elements| == 0 {
        forall q | q <= elements
          ensures q in nodeAt
        {
          assert q == [];
        }
        return;
      }
      var node := Walk(elements);
      if !node.isTerminating {
        MarkEnd(node, elements, original);
      }
      forall q | q in nodeAt && q != []
        ensures q in words || nodeAt[q].children != map[]
      {
        if q in old(nodeAt) {
          if q !in old(words) {
            var k :| k in old(nodeAt[q].children);
            assert old(q + [k] in nodeAt);
            assert k in nodeAt[q].children;
          }
        } else if q != elements {
          NextOnTheWay(q, elements);
          assert elements[|q|] in nodeAt[q].children;
        }
      }
    }

    /** Every prefix of a path of the trie is a path of the trie. */
    lemma {:induction false} PrefixClosed(q: seq<T>, p: seq<T>)
      requires Upward() && q in nodeAt && p <= q
      decreases |q|
      ensures p in nodeAt
    {
      if p != q {
        var k := q[|q| - 1];
        assert q == q[..|q| - 1] + [k];
        PrefixClosed(q[..|q| - 1], p);
      }
    }

    /** The paths of the trie that extend `r`. */
    ghost function Below(r: seq<T>): set<seq<T>>
      reads this
    {
      set x | x in nodeAt && r <= x
    }

    /** Below every node other than the root lies a word. */
    lemma {:induction false} WordBelow(r: seq<T>) returns (w: seq<T>)
      requires Downward() && NoDeadEnds() && r in nodeAt && r != []
      decreases |Below(r)|
      ensures w in words && r <= w
    {
      if r in words {
        return r;
      }
      var k :| k in nodeAt[r].children;
      assert Below(r + [k]) < Below(r) by {
        assert r in Below(r) && r !in Below(r + [k]);
        forall x | x in Below(r + [k])
          ensures x in Below(r)
        {
          assert r <= r + [k];
        }
      }
      ProperSubsetSmaller(Below(r + [k]), Below(r));
      w := WordBelow(r + [k]);
    }

    /** A node other than the root without children ends a word that no other word extends. */
    lemma LeafIsMaximal(q: seq<T>)
      requires Upward() && NoDeadEnds() && (forall w | w in words :: w in nodeAt)
      requires q in nodeAt && q != [] && nodeAt[q].children == map[]
      ensures Maximal(words, q)
    {
      forall v | v in words && q < v
        ensures false
      {
        var k := v[|q|];
        NextOnTheWay(q, v);
        PrefixClosed(v, q + [k]);
      }
    }

    /** A word that no other word extends ends at a node without children. */
    lemma MaximalIsLeaf(q: seq<T>)
      requires Downward() && NoDeadEnds() && q in nodeAt && q != []
      ensures Maximal(words, q) ==> nodeAt[q].children == map[]
    {
      if k :| k in nodeAt[q].children {
        var w := WordBelow(q + [k]);
        assert q < w;
      }
    }

    /** One step of a walk: the child under `s[i - 1]` of the node at `s[index..i - 1]` is the
        node at `s[index..i]`. */
    lemma StepDown(s: seq<T>, index: nat, i: nat)
      requires Downward() && index < i <= |s| && s[index..i - 1] in nodeAt && s[i - 1] in nodeAt[s[index..i - 1]].children
      ensures s[index..i] in nodeAt && nodeAt[s[index..i]] == nodeAt[s[index..i - 1]].children[s[i - 1]]
    {
      SliceExtend(s, index, i - 1);
    }

    /** Where the first-leaf walk stands at the node of `s[index..i]`: a node without children
        ends the shortest maximal word, with its payload; any other node is passed by. */
    lemma LeafStep(s: seq<T>, index: nat, i: nat)
      requires Linked() && Marks() && NoDeadEnds() && index < i <= |s| && s[index..i] in nodeAt
      ensures nodeAt[s[index..i]].children == map[] ==>
        ShortestMaximalEnd(words, s, index, i) == Some(i) && nodeAt[s[index..i]].original == Some(words[s[index..i]])
      ensures nodeAt[s[index..i]].children != map[] ==>
        ShortestMaximalEnd(words, s, index, i) == ShortestMaximalEnd(words, s, index, i + 1)
    {
      var p := s[index..i];
      MaximalIsLeaf(p);
      if nodeAt[p].children == map[] {
        LeafIsMaximal(p);
      }
    }

    /** Where a walk stops for a missing child: the node at `s[index..i - 1]` has no child under
        `s[i - 1]`, so no path of the trie, and no word, extends `s[index..i]`. */
    lemma NothingBeyond(s: seq<T>, index: nat, i: nat)
      requires Upward() && (forall w | w in words :: w in nodeAt) && index < i <= |s|
      requires s[index..i - 1] in nodeAt && s[i - 1] !in nodeAt[s[index..i - 1]].children
      ensures forall k | i <= k <= |s| :: s[index..k] !in nodeAt && s[index..k] !in words
    {
      SliceExtend(s, index, i - 1);
      forall k | i <= k <= |s|
        ensures s[index..k] !in nodeAt
      {
        if s[index..k] in nodeAt {
          PrefixClosed(s[index..k], s[index..i]);
        }
      }
    }

    /** A first-terminal walk that stops for a missing child finds no word. */
    lemma MissEnds(s: seq<T>, index: nat, end: int, i: nat)
      requires Upward() && (forall w | w in words :: w in nodeAt) && index < i <= end <= |s|
      requires s[index..i - 1] in nodeAt && s[i - 1] !in nodeAt[s[index..i - 1]].children
      requires forall k | index < k < i :: s[index..k] !in words
      ensures ShortestWordEnd(words, s, index, end, index + 1) == None
    {
      NothingBeyond(s, index, i);
      NoEndBy(words, s, index, end);
    }

    /** A first-leaf walk that stops for a missing child finds no maximal word. */
    lemma MissEndsMaximal(s: seq<T>, index: nat, i: nat)
      requires Upward() && (forall w | w in words :: w in nodeAt) && index < i <= |s|
      requires s[index..i - 1] in nodeAt && s[i - 1] !in nodeAt[s[index..i - 1]].children
      ensures ShortestMaximalEnd(words, s, index, i) == None
    {
      NothingBeyond(s, index, i);
      ShortestMaximalEndIff(words, s, index, i, 0);
    }

    /** The `stringIn` walk of `UTF8CStringParser` and `UTF16Parser`: from the root, follow one
        child per element of `s` from `index`, stopping before `end`, and answer with the payload
        of the first terminating node and the index after it; a missing child or the end of the
        input is a miss. The answer is the shortest word at `index`. */
    method FirstTerminal(s: seq<T>, index: nat, end: int) returns (found: Option<(O, nat)>)
      requires Linked() && Marks() && end <= |s|
      ensures found == ShortestWord(words, s, index, end)
    {
      var i := index;
      var node := root;
      ghost var p: seq<T> := [];
      while i < end
        invariant index <= i
        invariant i <= end || i == index
        invariant index <= |s| ==> p == s[index..i]
        invariant p in nodeAt && node == nodeAt[p]
        invariant forall k | index < k <= i :: s[index..k] !in words
        decreases end - i
      {
        var elem := s[i];
        i := i + 1;
        if elem in node.children {
          node := node.children[elem];
          StepDown(s, index, i);
          p := s[index..i];
          if node.isTerminating {
            FirstEndAt(words, s, index, end, i);
            return Some((node.original.value, i));
          }
        } else {
          MissEnds(s, index, end, i);
          return None;
        }
      }
      NoEndBy(words, s, index, end);
      return None;
    }

    /** The `stringIn` walk of `UTF8Parser`: from the root, follow one child per element of `s`
        from `index` and answer with the payload of the first leaf and the index after it; a
        missing child or the end of the input is a miss. The answer is the shortest word at
        `index` that no other word extends. */
    method FirstLeaf(s: seq<T>, index: nat) returns (found: Option<(O, nat)>)
      requires Linked() && Marks() && NoDeadEnds()
      ensures found == ShortestMaximal(words, s, index)
    {
      var i := index;
      var node := root;
      ghost var p: seq<T> := [];
      while i < |s|
        invariant index <= i
        invariant i <= |s| || i == index
        invariant index <= |s| ==> p == s[index..i]
        invariant p in nodeAt && node == nodeAt[p]
        invariant ShortestMaximalEnd(words, s, index, index + 1) == ShortestMaximalEnd(words, s, index, i + 1)
        decreases |s| - i
      {
        var elem := s[i];
        i := i + 1;
        if elem in node.children {
          node := node.children[elem];
          StepDown(s, index, i);
          p := s[index..i];
          LeafStep(s, index, i);
          if node.IsLeaf() {
            return Some((node.original.value, i));
          }
        } else {
          MissEndsMaximal(s, index, i);
          break;
        }
      }
      return None;
    }
  }

  /** The words a set of keys gives when each key is inserted with itself as payload; `insert`
      ignores the empty key. */
  function KeyMap<T(==)>(xs: set<seq<T>>): map<seq<T>, seq<T>> {
    map w | w in xs && w != [] :: w
  }

  /** Taking one more key `w` out of `rest` adds it to the word map, unless it is empty. */
  lemma KeyMapStep<T>(xs: set<seq<T>>, rest: set<seq<T>>, w: seq<T>)
    requires rest <= xs && w in rest
    ensures w !in KeyMap(xs - rest)
    ensures KeyMap(xs - (rest - {w})) == if w == [] then KeyMap(xs - rest) else KeyMap(xs - rest)[w := w]
  {
    assert xs - (rest - {w}) == (xs - rest) + {w};
  }

  /** Over the words of a set of keys, the walk to the first terminating node finds `o`
      ending at `n` exactly when `o` is the key that starts at `i` and ends at `n`, and no
      shorter key starts at `i`; it finds nothing exactly when no key starts at `i`. */
  lemma ShortestKeyCases<T>(xs: set<seq<T>>, s: seq<T>, i: nat, end: int, o: seq<T>, n: nat)
    requires end <= |s|
    ensures ShortestWord(KeyMap(xs), s, i, end) == Some((o, n)) <==>
      i < n <= end && o == s[i..n] && o in xs && forall k | i < k < n :: s[i..k] !in xs
    ensures ShortestWord(KeyMap(xs), s, i, end).None? <==> forall k | i < k <= end :: s[i..k] !in xs
  {
    var words := KeyMap(xs);
    ShortestWordEndIff(words, s, i, end, i + 1, n);
    if i < n <= end && o == s[i..n] && o in xs && forall k | i < k < n :: s[i..k] !in xs {
      assert s[i..n] in words;
      assert forall k | i + 1 <= k < n :: s[i..k] !in words;
    }
    if forall k | i < k <= end :: s[i..k] !in xs {
      ShortestWordEndIff(words, s, i, end, i + 1, 0);
    }
  }

  /** A key of `xs` that is not empty and that no other key extends: the keys that end at a
      leaf of the trie built from `xs`. */
  predicate LeafKey<T(==)>(xs: set<seq<T>>, w: seq<T>) {
    w != [] && w in xs && forall v | v in xs :: !(w < v)
  }

  /** The leaf keys are the maximal words of the word map. */
  lemma LeafKeyIsMaximal<T>(xs: set<seq<T>>, w: seq<T>)
    ensures Maximal(KeyMap(xs), w) <==> LeafKey(xs, w)
  {
    if LeafKey(xs, w) {
      forall v | v in KeyMap(xs)
        ensures !(w < v)
      {
        assert v in xs;
      }
    }
    if w in KeyMap(xs) && !LeafKey(xs, w) {
      var v :| v in xs && w < v;
      assert v in KeyMap(xs);
    }
  }

  /** Over the words of a set of keys, the walk to the first leaf finds `o` ending at `n`
      exactly when `o` is the leaf key that starts at `i` and ends at `n`, and no shorter leaf
      key starts at `i`; it finds nothing exactly when no leaf key starts at `i`. */
  lemma ShortestLeafKeyCases<T>(xs: set<seq<T>>, s: seq<T>, i: nat, o: seq<T>, n: nat)
    ensures ShortestMaximal(KeyMap(xs), s, i) == Some((o, n)) <==>
      i < n <= |s| && o == s[i..n] && LeafKey(xs, o) && forall k | i < k < n :: !LeafKey(xs, s[i..k])
    ensures ShortestMaximal(KeyMap(xs), s, i).None? <==> forall k | i < k <= |s| :: !LeafKey(xs, s[i..k])
  {
    var words := KeyMap(xs);
    forall w: seq<T>
      ensures Maximal(words, w) <==> LeafKey(xs, w)
    {
      LeafKeyIsMaximal(xs, w);
    }
    ShortestMaximalEndIff(words, s, i, i + 1, n);
    ShortestMaximalEndIff(words, s, i, i + 1, 0);
  }

  /** The construction shared by the `stringIn` scanners: an empty trie, then `insert` of every
      key of `xs`, in whatever order the set yields them, with the key itself as payload. */
  method Build<T(==,!new)>(xs: set<seq<T>>) returns (t: Trie<T, seq<T>>)
    ensures t.Valid() && fresh(t.Repr)
    ensures t.words == KeyMap(xs) && t.Count() == |KeyMap(xs)|
  {
    t := new Trie();
    var rest := xs;
    while rest != {}
      invariant rest <= xs
      invariant t.Valid() && fresh(t.Repr)
      invariant t.words == KeyMap(xs - rest)
      decreases |rest|
    {
      var w :| w in rest;
      KeyMapStep(xs, rest, w);
      t.Insert(w, w);
      rest := rest - {w};
    }
  }
}
