/** The Aho-Corasick matcher: a node array grown in place, breadth-first failure links, and a
    one-pass scan. Ghost fields name the word of each node; they carry the proof. */
module Aho {
  import opened Ordering
  import opened AhoSpec

  datatype Node = Node(next: map<char, nat>, fail: nat, out: seq<Out>)

  /** The child on c, with 0 for "no child": sound because no edge leads to node 0. */
  function ChildOrZero(n: Node, c: char): nat {
    if c in n.next then n.next[c] else 0
  }

  // ---------- Invariants, on values ----------

  /** id and word are inverse to each other, the words are prefix-closed, and an edge is there
      exactly when the longer word is a node. */
  ghost predicate Trie(nodes: seq<Node>, word: seq<Word>, id: map<Word, nat>) {
    && |word| == |nodes| > 0
    && word[0] == []
    && (forall n :: 0 <= n < |nodes| ==> word[n] in id && id[word[n]] == n)
    && (forall w :: w in id ==> id[w] < |nodes| && word[id[w]] == w)
    && PrefixClosed(id.Keys)
    && (forall n, c :: 0 <= n < |nodes| ==> (c in nodes[n].next <==> word[n] + [c] in id))
    && (forall n, c :: 0 <= n < |nodes| && c in nodes[n].next ==> nodes[n].next[c] == id[word[n] + [c]])
  }

  /** Node n as Add leaves it. */
  ghost predicate Raw(nodes: seq<Node>, word: seq<Word>, added: seq<Out>, n: nat)
    requires n < |nodes| == |word|
  {
    nodes[n].fail == 0 && nodes[n].out == PatternsEqual(added, word[n])
  }

  /** Node n as Build leaves it: fail is the longest proper suffix that is a node, and out holds
      each added pattern that is a suffix of n's word, once. */
  ghost predicate Linked(nodes: seq<Node>, word: seq<Word>, id: map<Word, nat>, added: seq<Out>, n: nat)
    requires n < |nodes| == |word| && [] in id
  {
    && nodes[n].fail == (if word[n] == [] then 0 else id[LongestIn(word[n][1..], id.Keys)])
    && nodes[n].out == SuffixOuts(added, word[n])
  }

  lemma RootIsLinked(nodes: seq<Node>, word: seq<Word>, id: map<Word, nat>, added: seq<Out>)
    requires Trie(nodes, word, id) && Raw(nodes, word, added, 0)
    requires forall o :: o in added ==> o.pat != []
    ensures Linked(nodes, word, id, added, 0)
  {
    NoPatternEqual(added, []);
  }

  /** Only fail and out differ. */
  ghost predicate SameEdges(a: seq<Node>, b: seq<Node>) {
    |a| == |b| && forall n :: 0 <= n < |a| ==> a[n].next == b[n].next
  }

  lemma TrieKeepsShape(a: seq<Node>, b: seq<Node>, word: seq<Word>, id: map<Word, nat>)
    requires Trie(a, word, id) && SameEdges(a, b)
    ensures Trie(b, word, id)
  {
  }

  /** The trie with a fresh child of n on r. */
  function Grown(nodes: seq<Node>, n: nat, r: char): seq<Node>
    requires n < |nodes|
  {
    nodes[n := nodes[n].(next := nodes[n].next[r := |nodes|])] + [Node(map[], 0, [])]
  }

  lemma GrownEdge(nodes: seq<Node>, word: seq<Word>, id: map<Word, nat>, n: nat, r: char, m: nat, c: char)
    requires Trie(nodes, word, id)
    requires n < |nodes| && r !in nodes[n].next && m <= |nodes|
    ensures var w := word[n] + [r];
            var from := if m == |nodes| then w else word[m];
            var id' := id[w := |nodes|];
            var edges := Grown(nodes, n, r)[m].next;
            && (c in edges <==> from + [c] in id')
            && (c in edges ==> edges[c] == id'[from + [c]])
  {
    var w := word[n] + [r];
    if m == |nodes| {
      assert Init(w + [c]) == w;
      assert |w + [c]| != |w|;
    } else {
      if word[m] + [c] == w {
        assert word[m] == Init(w) == word[n] && c == w[|w| - 1];
        assert id[word[m]] == m && id[word[n]] == n;
      }
    }
  }

  lemma GrownTrie(nodes: seq<Node>, word: seq<Word>, id: map<Word, nat>, n: nat, r: char)
    requires Trie(nodes, word, id)
    requires n < |nodes| && r !in nodes[n].next
    ensures word[n] + [r] !in id
    ensures Trie(Grown(nodes, n, r), word + [word[n] + [r]], id[word[n] + [r] := |nodes|])
  {
    var w := word[n] + [r];
    var nodes', word', id' := Grown(nodes, n, r), word + [w], id[w := |nodes|];
    assert Init(w) == word[n];
    forall m, c | 0 <= m < |nodes'|
      ensures c in nodes'[m].next <==> word'[m] + [c] in id'
      ensures c in nodes'[m].next ==> nodes'[m].next[c] == id'[word'[m] + [c]]
    {
      GrownEdge(nodes, word, id, n, r, m, c);
    }
    assert PrefixClosed(id'.Keys) by {
      forall v | v in id'.Keys ensures Init(v) in id'.Keys {
        assert v == w || v in id.Keys;
      }
    }
  }

  /** Every added pattern is a node's word, none is empty. */
  ghost predicate PatternsIn(added: seq<Out>, words: set<Word>) {
    forall o :: o in added ==> o.pat != [] && o.pat in words
  }

  /** The automaton between Add calls. */
  ghost predicate Unlinked(nodes: seq<Node>, word: seq<Word>, id: map<Word, nat>, added: seq<Out>) {
    && Trie(nodes, word, id)
    && PatternsIn(added, id.Keys)
    && forall n :: 0 <= n < |nodes| ==> Raw(nodes, word, added, n)
  }

  /** The automaton after Build. */
  ghost predicate AllLinked(nodes: seq<Node>, word: seq<Word>, id: map<Word, nat>, added: seq<Out>) {
    && Trie(nodes, word, id)
    && PatternsIn(added, id.Keys)
    && forall n :: 0 <= n < |nodes| ==> Linked(nodes, word, id, added, n)
  }

  lemma GrownUnlinked(nodes: seq<Node>, word: seq<Word>, id: map<Word, nat>, added: seq<Out>, n: nat, r: char)
    requires Unlinked(nodes, word, id, added)
    requires n < |nodes| && r !in nodes[n].next
    ensures Unlinked(Grown(nodes, n, r), word + [word[n] + [r]], id[word[n] + [r] := |nodes|], added)
  {
    GrownTrie(nodes, word, id, n, r);
    var w := word[n] + [r];
    NoPatternEqual(added, w);
    forall m | 0 <= m <= |nodes| ensures Raw(Grown(nodes, n, r), word + [w], added, m) {
      assert m < |nodes| ==> Raw(nodes, word, added, m);
    }
  }

  // ---------- Breadth-first order ----------

  /** E lists the nodes enqueued so far, each once and by depth; the first h of them, and the root
      if it is in done, have been processed. */
  ghost predicate Frontier(nodes: seq<Node>, word: seq<Word>, id: map<Word, nat>, E: seq<nat>, h: nat, done: set<nat>) {
    && Trie(nodes, word, id)
    && h <= |E|
    && (forall i :: 0 <= i < |E| ==> 0 < E[i] < |nodes|)
    && (forall i, j :: 0 <= i < j < |E| ==> E[i] != E[j])
    && (forall i, j :: 0 <= i < j < |E| ==> |word[E[i]]| <= |word[E[j]]|)
    && (forall i :: 0 <= i < |E| ==> (E[i] in done <==> i < h))
    && (forall n :: n in done ==> n == 0 || n in E)
  }

  ghost function Parent(word: seq<Word>, id: map<Word, nat>, n: nat): nat
    requires n < |word| && Init(word[n]) in id
  {
    id[Init(word[n])]
  }

  /** Enqueued are the children of the processed nodes and, while r is being processed, its
      children on characters outside todo. */
  ghost predicate HalfClosed(nodes: seq<Node>, word: seq<Word>, id: map<Word, nat>, E: seq<nat>, done: set<nat>,
                             r: nat, todo: set<char>)
    requires Trie(nodes, word, id)
  {
    forall n :: 0 < n < |nodes| ==>
                  && word[n] != [] && Init(word[n]) in id
                  && (n in E <==> Parent(word, id, n) in done
                                  || (Parent(word, id, n) == r && word[n][|word[n]| - 1] !in todo))
  }

  /** Exactly the children of the processed nodes have been enqueued. */
  ghost predicate Closed(nodes: seq<Node>, word: seq<Word>, id: map<Word, nat>, E: seq<nat>, done: set<nat>)
    requires Trie(nodes, word, id)
  {
    forall n :: 0 < n < |nodes| ==>
                  word[n] != [] && Init(word[n]) in id && (n in E <==> Parent(word, id, n) in done)
  }

  lemma {:induction false} MissingHasShallowerWaiting(nodes: seq<Node>, word: seq<Word>, id: map<Word, nat>,
                                                      E: seq<nat>, h: nat, done: set<nat>, n: nat)
    returns (j: nat)
    requires Frontier(nodes, word, id, E, h, done) && Closed(nodes, word, id, E, done) && 0 in done
    requires 0 < n < |nodes| && n !in E
    ensures h <= j < |E| && |word[E[j]]| < |word[n]|
    decreases |word[n]|
  {
    var p := Parent(word, id, n);
    assert word[p] == Init(word[n]);
    if p in E {
      j :| 0 <= j < |E| && E[j] == p;
    } else {
      j := MissingHasShallowerWaiting(nodes, word, id, E, h, done, p);
    }
  }

  /** Breadth first: no node is missing that is no deeper than the head of the queue, and none at
      all when the queue is empty. */
  lemma ShallowEnqueued(nodes: seq<Node>, word: seq<Word>, id: map<Word, nat>, E: seq<nat>, h: nat, done: set<nat>)
    requires Frontier(nodes, word, id, E, h, done) && Closed(nodes, word, id, E, done) && 0 in done
    ensures h < |E| ==> forall n :: 0 < n < |nodes| && |word[n]| <= |word[E[h]]| ==> n in E
    ensures h == |E| ==> forall n :: 0 < n < |nodes| ==> n in E
  {
    forall n | 0 < n < |nodes| && n !in E ensures h < |E| && |word[E[h]]| < |word[n]| {
      var j := MissingHasShallowerWaiting(nodes, word, id, E, h, done, n);
      assert h == j || |word[E[h]]| <= |word[E[j]]|;
    }
  }

  lemma InitLast(w: Word)
    requires w != []
    ensures w == Init(w) + [w[|w| - 1]]
  {
  }

  /** Every node but the root hangs below its parent on its last character. */
  lemma EdgeFromParent(nodes: seq<Node>, word: seq<Word>, id: map<Word, nat>, n: nat)
    requires Trie(nodes, word, id) && 0 < n < |nodes|
    ensures word[n] != [] && Init(word[n]) in id && Parent(word, id, n) < |nodes|
    ensures word[n][|word[n]| - 1] in nodes[Parent(word, id, n)].next
  {
    assert id[word[n]] == n && id[word[0]] == 0;
    InitLast(word[n]);
    var p := Parent(word, id, n);
    assert word[p] + [word[n][|word[n]| - 1]] in id;
  }

  lemma StartProcessing(nodes: seq<Node>, word: seq<Word>, id: map<Word, nat>, E: seq<nat>, done: set<nat>, r: nat)
    requires Trie(nodes, word, id)
    requires r < |nodes| && r !in done
    requires (done == {} && E == []) || Closed(nodes, word, id, E, done)
    ensures HalfClosed(nodes, word, id, E, done, r, nodes[r].next.Keys)
  {
    forall n | 0 < n < |nodes|
      ensures word[n] != [] && Init(word[n]) in id
      ensures Parent(word, id, n) == r ==> word[n][|word[n]| - 1] in nodes[r].next
    {
      EdgeFromParent(nodes, word, id, n);
    }
  }

  lemma ChildOf(nodes: seq<Node>, word: seq<Word>, id: map<Word, nat>, r: nat, c: char)
    requires Trie(nodes, word, id)
    requires r < |nodes| && c in nodes[r].next
    ensures var u := nodes[r].next[c];
            0 < u < |nodes| && word[u] == word[r] + [c] && Init(word[u]) in id && Parent(word, id, u) == r
  {
    var u := nodes[r].next[c];
    assert word[r] + [c] in id;
    assert word[u] != word[0];
    assert Init(word[u]) == word[r] && id[word[r]] == r;
  }

  lemma OnlyChild(nodes: seq<Node>, word: seq<Word>, id: map<Word, nat>, r: nat, c: char, n: nat)
    requires Trie(nodes, word, id)
    requires r < |nodes| && c in nodes[r].next
    requires 0 < n < |nodes| && word[n] != [] && Init(word[n]) in id
    ensures Parent(word, id, n) == r && word[n][|word[n]| - 1] == c <==> n == nodes[r].next[c]
  {
    ChildOf(nodes, word, id, r, c);
    assert id[word[n]] == n;
    InitLast(word[n]);
  }

  /** Enqueue r's child on c: it is new, and deep enough to go to the back. */
  lemma EnqueueChild(nodes: seq<Node>, word: seq<Word>, id: map<Word, nat>, E: seq<nat>, h: nat, done: set<nat>,
                     r: nat, todo: set<char>, c: char)
    requires Frontier(nodes, word, id, E, h, done)
    requires HalfClosed(nodes, word, id, E, done, r, todo)
    requires r < |nodes| && r !in done && c in todo && c in nodes[r].next
    requires forall i :: 0 <= i < |E| ==> |word[E[i]]| <= |word[r]| + 1
    ensures var u := nodes[r].next[c];
            && 0 < u < |nodes| && u !in E && word[u] == word[r] + [c]
            && Frontier(nodes, word, id, E + [u], h, done)
            && HalfClosed(nodes, word, id, E + [u], done, r, todo - {c})
  {
    hide Trie;
    ChildOf(nodes, word, id, r, c);
    HalfClosedGrows(nodes, word, id, E, done, r, todo, c);
    FrontierGrows(nodes, word, id, E, h, done, nodes[r].next[c]);
  }

  lemma HalfClosedGrows(nodes: seq<Node>, word: seq<Word>, id: map<Word, nat>, E: seq<nat>, done: set<nat>,
                        r: nat, todo: set<char>, c: char)
    requires Trie(nodes, word, id) && HalfClosed(nodes, word, id, E, done, r, todo)
    requires r < |nodes| && r !in done && c in todo && c in nodes[r].next
    ensures nodes[r].next[c] !in E
    ensures HalfClosed(nodes, word, id, E + [nodes[r].next[c]], done, r, todo - {c})
  {
    var u := nodes[r].next[c];
    ChildOf(nodes, word, id, r, c);
    OnlyChild(nodes, word, id, r, c, u);
    forall n | 0 < n < |nodes|
      ensures n in E + [u] <==> Parent(word, id, n) in done
                                || (Parent(word, id, n) == r && word[n][|word[n]| - 1] !in todo - {c})
    {
      OnlyChild(nodes, word, id, r, c, n);
    }
  }

  lemma FrontierGrows(nodes: seq<Node>, word: seq<Word>, id: map<Word, nat>, E: seq<nat>, h: nat, done: set<nat>, u: nat)
    requires Frontier(nodes, word, id, E, h, done)
    requires 0 < u < |nodes| && u !in E
    requires forall i :: 0 <= i < |E| ==> |word[E[i]]| <= |word[u]|
    ensures Frontier(nodes, word, id, E + [u], h, done)
  {
  }

  // ---------- Failure links ----------

  /** The nodes in E and the root are finished, the others are as Add left them. */
  ghost predicate Progress(nodes: seq<Node>, word: seq<Word>, id: map<Word, nat>, added: seq<Out>, E: seq<nat>) {
    && Trie(nodes, word, id)
    && PatternsIn(added, id.Keys)
    && (forall n :: 0 <= n < |nodes| && (n == 0 || n in E) ==> Linked(nodes, word, id, added, n))
    && (forall n :: 0 < n < |nodes| && n !in E ==> Raw(nodes, word, added, n))
  }

  /** One hop along a failure link: shallower, and nothing is lost. */
  lemma Hop(nodes: seq<Node>, word: seq<Word>, id: map<Word, nat>, added: seq<Out>, f: nat, c: char)
    requires Trie(nodes, word, id)
    requires 0 < f < |nodes| && Linked(nodes, word, id, added, f) && c !in nodes[f].next
    ensures nodes[f].fail < |nodes| && |word[nodes[f].fail]| < |word[f]|
    ensures Follow(word[f], c, id.Keys) == Follow(word[nodes[f].fail], c, id.Keys)
    ensures Hops(word[f], c, id.Keys) == 1 + Hops(word[nodes[f].fail], c, id.Keys)
  {
  }

  /** Where the hops stop, the next state is the child on c, or the root. */
  lemma Stop(nodes: seq<Node>, word: seq<Word>, id: map<Word, nat>, f: nat, c: char)
    requires Trie(nodes, word, id)
    requires f < |nodes| && (f == 0 || c in nodes[f].next)
    ensures c in nodes[f].next ==> 0 < nodes[f].next[c] < |nodes| && Follow(word[f], c, id.Keys) == word[nodes[f].next[c]]
    ensures c !in nodes[f].next ==> Follow(word[f], c, id.Keys) == []
  {
    if c in nodes[f].next {
      ChildOf(nodes, word, id, f, c);
    } else {
      assert word[f] + [c] !in id;
    }
  }

  /** No edge leads to node 0. */
  lemma ZeroMeansAbsent(nodes: seq<Node>, word: seq<Word>, id: map<Word, nat>, f: nat, c: char)
    requires Trie(nodes, word, id) && f < |nodes|
    ensures ChildOrZero(nodes[f], c) == 0 <==> c !in nodes[f].next
  {
    if c in nodes[f].next {
      ChildOf(nodes, word, id, f, c);
    }
  }

  /** Linking u finishes it and touches no other node. */
  lemma ProgressStep(a: seq<Node>, b: seq<Node>, word: seq<Word>, id: map<Word, nat>, added: seq<Out>,
                     E: seq<nat>, u: nat)
    requires Progress(a, word, id, added, E) && SameEdges(a, b)
    requires u < |a| && u !in E && Linked(b, word, id, added, u)
    requires forall n :: 0 <= n < |a| && n != u ==> b[n] == a[n]
    ensures Progress(b, word, id, added, E + [u])
  {
    TrieKeepsShape(a, b, word, id);
    forall n | 0 <= n < |b| && n != u && (n == 0 || n in E) ensures Linked(b, word, id, added, n) {
      assert Linked(a, word, id, added, n);
    }
    forall n | 0 < n < |b| && n !in E + [u] ensures Raw(b, word, added, n) {
      assert Raw(a, word, added, n);
    }
  }

  /** The outputs of the failure node are complete, and are what r's child on c has to inherit. */
  lemma Inherit(nodes: seq<Node>, word: seq<Word>, id: map<Word, nat>, added: seq<Out>, E: seq<nat>,
                r: nat, c: char, v: nat)
    requires Progress(nodes, word, id, added, E)
    requires 0 < r < |nodes| && c in nodes[r].next && nodes[r].next[c] !in E && word[r] != []
    requires forall n :: 0 < n < |nodes| && |word[n]| <= |word[r]| ==> n in E
    requires v == id[LongestIn(word[r][1..] + [c], id.Keys)]
    ensures var u := nodes[r].next[c];
            && 0 < u < |nodes| && v < |nodes| && v != u
            && word[u] != [] && v == id[LongestIn(word[u][1..], id.Keys)]
            && nodes[u].out + nodes[v].out == SuffixOuts(added, word[u])
  {
    var u := nodes[r].next[c];
    ChildOf(nodes, word, id, r, c);
    assert word[u][1..] == word[r][1..] + [c];
    assert word[v] == LongestIn(word[u][1..], id.Keys);
    assert |word[v]| <= |word[r]|;
    assert Linked(nodes, word, id, added, v);
    assert Raw(nodes, word, added, u);
    SuffixOutsLongest(added, word[u][1..], id.Keys);
  }

  /** With v as the failure node, and its outputs behind its own, r's child on c is finished. */
  lemma LinkStep(a: seq<Node>, word: seq<Word>, id: map<Word, nat>, added: seq<Out>, E: seq<nat>, r: nat, c: char, v: nat)
    requires Progress(a, word, id, added, E)
    requires 0 < r < |a| && c in a[r].next && a[r].next[c] !in E && word[r] != []
    requires forall n :: 0 < n < |a| && |word[n]| <= |word[r]| ==> n in E
    requires v == id[LongestIn(word[r][1..] + [c], id.Keys)]
    ensures var u := a[r].next[c];
            && u < |a| && v < |a| && v != u
            && var b := a[u := a[u].(fail := v, out := a[u].out + a[v].out)];
            SameEdges(a, b) && Progress(b, word, id, added, E + [u])
  {
    hide Progress, Trie, LongestIn, SuffixOuts, PatternsIn;
    Inherit(a, word, id, added, E, r, c, v);
    var u := a[r].next[c];
    ProgressStep(a, a[u := a[u].(fail := v, out := a[u].out + a[v].out)], word, id, added, E, u);
  }

  lemma RootChildIsLinked(nodes: seq<Node>, word: seq<Word>, id: map<Word, nat>, added: seq<Out>, u: nat)
    requires Trie(nodes, word, id)
    requires u < |nodes| && |word[u]| == 1 && Raw(nodes, word, added, u)
    ensures Linked(nodes, word, id, added, u)
  {
  }

  /** Build's state between two dequeues. */
  ghost predicate Level(nodes: seq<Node>, word: seq<Word>, id: map<Word, nat>, added: seq<Out>,
                        E: seq<nat>, h: nat, done: set<nat>) {
    && Frontier(nodes, word, id, E, h, done) && 0 in done
    && Closed(nodes, word, id, E, done)
    && Progress(nodes, word, id, added, E)
    && (h < |E| ==> forall i :: 0 <= i < |E| ==> |word[E[i]]| <= |word[E[h]]| + 1)
  }

  /** Build's state while r's children on todo are still to be enqueued. */
  ghost predicate Processing(nodes: seq<Node>, word: seq<Word>, id: map<Word, nat>, added: seq<Out>,
                             E: seq<nat>, h: nat, done: set<nat>, r: nat, todo: set<char>) {
    && Frontier(nodes, word, id, E, h, done)
    && HalfClosed(nodes, word, id, E, done, r, todo)
    && Progress(nodes, word, id, added, E)
    && r < |nodes|
    && forall i :: 0 <= i < |E| ==> |word[E[i]]| <= |word[r]| + 1
  }

  /** r leaves the queue. */
  lemma StartLevel(nodes: seq<Node>, word: seq<Word>, id: map<Word, nat>, added: seq<Out>,
                   E: seq<nat>, h: nat, done: set<nat>)
    requires Level(nodes, word, id, added, E, h, done) && h < |E|
    ensures 0 < E[h] < |nodes| == |word|
    ensures E[h] !in done && E[h] in E && 0 in done
    ensures Processing(nodes, word, id, added, E, h, done, E[h], nodes[E[h]].next.Keys)
    ensures forall n :: 0 < n < |nodes| && |word[n]| <= |word[E[h]]| ==> n in E
  {
    hide Linked;
    ShallowEnqueued(nodes, word, id, E, h, done);
    StartProcessing(nodes, word, id, E, done, E[h]);
  }

  /** r's child on c is new: it may be linked. */
  lemma BeforeLink(nodes: seq<Node>, word: seq<Word>, id: map<Word, nat>, added: seq<Out>,
                   E: seq<nat>, h: nat, done: set<nat>, r: nat, todo: set<char>, c: char)
    requires Processing(nodes, word, id, added, E, h, done, r, todo)
    requires r !in done && c in todo && c in nodes[r].next
    ensures Progress(nodes, word, id, added, E) && nodes[r].next[c] !in E
  {
    hide Linked, Raw;
    EnqueueChild(nodes, word, id, E, h, done, r, todo, c);
  }

  /** Once it is linked, it joins the queue. */
  lemma AfterLink(a: seq<Node>, b: seq<Node>, word: seq<Word>, id: map<Word, nat>, added: seq<Out>,
                  E: seq<nat>, h: nat, done: set<nat>, r: nat, todo: set<char>, c: char)
    requires Processing(a, word, id, added, E, h, done, r, todo)
    requires r !in done && c in todo && c in a[r].next
    requires SameEdges(a, b) && Progress(b, word, id, added, E + [a[r].next[c]])
    ensures Processing(b, word, id, added, E + [a[r].next[c]], h, done, r, todo - {c})
  {
    hide Linked, Raw, PatternsIn;
    EnqueueChild(a, word, id, E, h, done, r, todo, c);
    SameFrontier(a, b, word, id, E + [a[r].next[c]], h, done, r, todo - {c});
  }

  lemma SameFrontier(a: seq<Node>, b: seq<Node>, word: seq<Word>, id: map<Word, nat>,
                     E: seq<nat>, h: nat, done: set<nat>, r: nat, todo: set<char>)
    requires SameEdges(a, b) && Frontier(a, word, id, E, h, done) && HalfClosed(a, word, id, E, done, r, todo)
    ensures Frontier(b, word, id, E, h, done) && HalfClosed(b, word, id, E, done, r, todo)
  {
  }

  lemma CloseNode(nodes: seq<Node>, word: seq<Word>, id: map<Word, nat>, E: seq<nat>, done: set<nat>, r: nat)
    requires Trie(nodes, word, id) && HalfClosed(nodes, word, id, E, done, r, {})
    ensures Closed(nodes, word, id, E, done + {r})
  {
  }

  lemma AdvanceHead(nodes: seq<Node>, word: seq<Word>, id: map<Word, nat>, E: seq<nat>, h: nat, done: set<nat>)
    requires Frontier(nodes, word, id, E, h, done) && h < |E|
    ensures Frontier(nodes, word, id, E, h + 1, done + {E[h]})
  {
  }

  lemma FinishProcessing(nodes: seq<Node>, word: seq<Word>, id: map<Word, nat>, added: seq<Out>,
                         E: seq<nat>, h: nat, done: set<nat>, r: nat)
    requires Processing(nodes, word, id, added, E, h, done, r, {})
    requires h < |E| && E[h] == r && 0 in done
    ensures Level(nodes, word, id, added, E, h + 1, done + {r})
  {
    hide Trie, Progress;
    CloseNode(nodes, word, id, E, done, r);
    AdvanceHead(nodes, word, id, E, h, done);
    hide Closed, HalfClosed;
  }

  lemma StartRoot(nodes: seq<Node>, word: seq<Word>, id: map<Word, nat>, added: seq<Out>)
    requires Unlinked(nodes, word, id, added)
    ensures 0 < |nodes| == |word| && word[0] == []
    ensures Frontier(nodes, word, id, [], 0, {})
    ensures HalfClosed(nodes, word, id, [], {}, 0, nodes[0].next.Keys)
  {
    StartProcessing(nodes, word, id, [], {}, 0);
  }

  /** The first level: the root's children, which fail to the root and inherit nothing. */
  lemma FinishRoot(nodes: seq<Node>, word: seq<Word>, id: map<Word, nat>, added: seq<Out>, E: seq<nat>)
    requires Unlinked(nodes, word, id, added)
    requires Frontier(nodes, word, id, E, 0, {}) && HalfClosed(nodes, word, id, E, {}, 0, {})
    requires forall i :: 0 <= i < |E| ==> E[i] < |word| && |word[E[i]]| == 1
    ensures Level(nodes, word, id, added, E, 0, {0})
  {
    hide Linked, Trie;
    CloseNode(nodes, word, id, E, {}, 0);
    FirstLevelIsLinked(nodes, word, id, added, E);
    hide Progress, Closed;
  }

  lemma FirstLevelIsLinked(nodes: seq<Node>, word: seq<Word>, id: map<Word, nat>, added: seq<Out>, E: seq<nat>)
    requires Unlinked(nodes, word, id, added)
    requires forall i :: 0 <= i < |E| ==> E[i] < |word| && |word[E[i]]| == 1
    ensures Progress(nodes, word, id, added, E)
  {
    hide Linked;
    RootIsLinked(nodes, word, id, added);
    forall n | n in E ensures Linked(nodes, word, id, added, n) {
      RootChildIsLinked(nodes, word, id, added, n);
    }
  }

  ghost function Unprocessed(n: nat): set<nat> {
    if n == 0 then {} else Unprocessed(n - 1) + {n - 1}
  }

  lemma {:induction false} UnprocessedHas(n: nat, k: nat)
    requires k < n
    ensures k in Unprocessed(n)
  {
    if k < n - 1 {
      UnprocessedHas(n - 1, k);
    }
  }

  lemma StillUnprocessed(nodes: seq<Node>, word: seq<Word>, id: map<Word, nat>, added: seq<Out>,
                         E: seq<nat>, h: nat, done: set<nat>)
    requires Level(nodes, word, id, added, E, h, done) && h < |E|
    ensures E[h] in Unprocessed(|nodes|) && E[h] !in done
  {
    hide Trie, Progress, Closed;
    UnprocessedHas(|nodes|, E[h]);
  }

  /** Each node but the root once, shallower nodes first. */
  ghost predicate BreadthFirst(nodes: seq<Node>, word: seq<Word>, order: seq<nat>) {
    && |nodes| == |word|
    && (forall n :: n in order <==> 0 < n < |nodes|)
    && (forall i, j :: 0 <= i < j < |order| ==> order[i] != order[j])
    && (forall i, j :: 0 <= i < j < |order| && order[i] < |word| && order[j] < |word| ==>
                         |word[order[i]]| <= |word[order[j]]|)
  }

  lemma AllProcessed(nodes: seq<Node>, word: seq<Word>, id: map<Word, nat>, added: seq<Out>,
                     E: seq<nat>, h: nat, done: set<nat>)
    requires Level(nodes, word, id, added, E, h, done) && h == |E|
    ensures AllLinked(nodes, word, id, added) && BreadthFirst(nodes, word, E)
  {
    hide Linked, PatternsIn;
    ShallowEnqueued(nodes, word, id, E, h, done);
  }

  // ---------- Facts for the scan ----------

  lemma ScanStart(nodes: seq<Node>, word: seq<Word>, id: map<Word, nat>, added: seq<Out>)
    requires AllLinked(nodes, word, id, added)
    ensures PrefixClosed(id.Keys)
    ensures 0 < |nodes| == |word| && word[0] == [] == LongestIn([], id.Keys)
  {
  }

  lemma HopLinked(nodes: seq<Node>, word: seq<Word>, id: map<Word, nat>, added: seq<Out>, f: nat, c: char)
    requires AllLinked(nodes, word, id, added)
    requires 0 < f < |nodes| == |word| && c !in nodes[f].next && [] in id
    ensures nodes[f].fail < |nodes| && |word[nodes[f].fail]| < |word[f]|
    ensures Follow(word[f], c, id.Keys) == Follow(word[nodes[f].fail], c, id.Keys)
    ensures Hops(word[f], c, id.Keys) == 1 + Hops(word[nodes[f].fail], c, id.Keys)
  {
    Hop(nodes, word, id, added, f, c);
  }

  lemma StopLinked(nodes: seq<Node>, word: seq<Word>, id: map<Word, nat>, added: seq<Out>, f: nat, c: char)
    requires AllLinked(nodes, word, id, added)
    requires f < |nodes| == |word| && (f == 0 || c in nodes[f].next) && [] in id
    ensures c in nodes[f].next ==>
              && nodes[f].next[c] < |nodes|
              && Follow(word[f], c, id.Keys) == word[nodes[f].next[c]] == word[f] + [c]
    ensures c !in nodes[f].next ==> f == 0 && Follow(word[f], c, id.Keys) == [] == word[f]
  {
  }

  /** The state's outputs are the patterns that end here. */
  lemma Reported(nodes: seq<Node>, word: seq<Word>, id: map<Word, nat>, added: seq<Out>, state: nat, t: Word)
    requires AllLinked(nodes, word, id, added)
    requires state < |nodes| == |word| && [] in id && word[state] == LongestIn(t, id.Keys)
    ensures nodes[state].out == SuffixOuts(added, t)
  {
    assert Linked(nodes, word, id, added, state);
    SuffixOutsLongest(added, t, id.Keys);
  }

  lemma PatternsNonEmpty(nodes: seq<Node>, word: seq<Word>, id: map<Word, nat>, added: seq<Out>)
    requires AllLinked(nodes, word, id, added)
    ensures forall o :: o in added ==> o.pat != []
  {
  }

  lemma EmptyScan(added: seq<Out>)
    ensures Scan(added, []) == []
  {
  }

  lemma ScanStep(added: seq<Out>, text: Word, i: nat)
    requires i < |text|
    ensures Scan(added, text[..i + 1]) == Scan(added, text[..i]) + Report(SuffixOuts(added, text[..i + 1]), i + 1)
  {
    assert text[..i + 1][..i] == text[..i];
  }

  class AhoMatcher {
    var nodes: seq<Node>
    ghost var word: seq<Word>
    ghost var id: map<Word, nat>
    ghost var added: seq<Out>  // what Add was given, empty patterns left out
    ghost var built: bool

    ghost predicate Valid()
      reads this
    {
      if built then AllLinked(nodes, word, id, added) else Unlinked(nodes, word, id, added)
    }

    constructor ()
      ensures Valid() && !built && added == []
    {
      nodes := [Node(map[], 0, [])];
      word := [[]];
      id := map[[] := 0];
      added := [];
      built := false;
    }

    method Add(pattern: Word, p: Payload)
      requires Valid() && !built
      modifies this
      ensures Valid() && !built
      ensures added == old(added) + if pattern == [] then [] else [Out(pattern, p)]
    {
      if |pattern| == 0 {
        return;
      }
      var n := 0;
      for i := 0 to |pattern|
        invariant Valid() && !built && added == old(added)
        invariant pattern[..i] in id && n == id[pattern[..i]]
      {
        var r := pattern[i];
        ghost var w := word[n] + [r];
        assert pattern[..i + 1] == w;
        if r in nodes[n].next {
          n := nodes[n].next[r];
        } else {
          GrownUnlinked(nodes, word, id, added, n, r);
          var nx := |nodes|;
          nodes := Grown(nodes, n, r);
          word := word + [w];
          id := id[w := nx];
          n := nx;
        }
      }
      assert pattern[..|pattern|] == pattern;
      AddOut(n, Out(pattern, p));
    }

    /** The last step of Add: the pattern's own node reports it. */
    method AddOut(n: nat, o: Out)
      requires Valid() && !built
      requires n < |nodes| && word[n] == o.pat != []
      modifies this
      ensures Valid() && !built
      ensures added == old(added) + [o]
    {
      ghost var before, were := nodes, added;
      nodes := nodes[n := nodes[n].(out := nodes[n].out + [o])];
      added := added + [o];
      TrieKeepsShape(before, nodes, word, id);
      forall m | 0 <= m < |nodes| ensures Raw(nodes, word, added, m) {
        assert Raw(before, word, were, m);
        PatternsEqualAppend(were, [o], word[m]);
        assert PatternsEqual([o], word[m]) == if m == n then [o] else [] by {
          assert id[word[m]] == m && id[word[n]] == n;
          assert [o][1..] == [];
        }
      }
    }

    /** Walk the failure links of r to the node that r's child on ch fails to. */
    method FailTarget(r: nat, ch: char, ghost E: seq<nat>) returns (v: nat)
      requires !built && Progress(nodes, word, id, added, E)
      requires r in E && 0 < r < |nodes| && ch in nodes[r].next
      requires forall n :: 0 < n < |nodes| && |word[n]| <= |word[r]| ==> n in E
      ensures word[r] != [] && v == id[LongestIn(word[r][1..] + [ch], id.Keys)]
    {
      var u := nodes[r].next[ch];
      ChildOf(nodes, word, id, r, ch);
      assert word[r] != [] by { assert id[word[r]] == r && id[word[0]] == 0; }
      LongestStep(word[r][1..], ch, id.Keys);
      assert Linked(nodes, word, id, added, r);
      var f: nat := nodes[r].fail;
      while f != 0 && ChildOrZero(nodes[f], ch) == 0
        invariant f < |nodes| == |word| && |word[f]| < |word[r]|
        invariant Follow(word[f], ch, id.Keys) == LongestIn(word[r][1..] + [ch], id.Keys)
        decreases |word[f]|
      {
        ZeroMeansAbsent(nodes, word, id, f, ch);
        Hop(nodes, word, id, added, f, ch);
        f := nodes[f].fail;
      }
      ZeroMeansAbsent(nodes, word, id, f, ch);
      Stop(nodes, word, id, f, ch);
      v := 0;
      if ch in nodes[f].next && nodes[f].next[ch] != u {
        v := nodes[f].next[ch];
      }
    }

    /** Give r's child on ch its failure link and the outputs it inherits. */
    method Link(r: nat, ch: char, ghost E: seq<nat>)
      requires !built && Progress(nodes, word, id, added, E)
      requires r in E && 0 < r < |nodes| && ch in nodes[r].next && nodes[r].next[ch] !in E
      requires forall n :: 0 < n < |nodes| && |word[n]| <= |word[r]| ==> n in E
      modifies this`nodes
      ensures SameEdges(old(nodes), nodes)
      ensures Progress(nodes, word, id, added, E + [old(nodes)[r].next[ch]])
    {
      var u := nodes[r].next[ch];
      hide Progress, Trie, LongestIn, SuffixOuts, PatternsIn, SameEdges;
      var v := FailTarget(r, ch, E);
      LinkStep(nodes, word, id, added, E, r, ch, v);
      ghost var linked := nodes[u := nodes[u].(fail := v, out := nodes[u].out + nodes[v].out)];
      nodes := nodes[u := nodes[u].(fail := v)];
      nodes := nodes[u := nodes[u].(out := nodes[u].out + nodes[nodes[u].fail].out)];
      assert nodes == linked;
    }

    /** Build's first loop: enqueue the root's children. */
    method EnqueueRootChildren() returns (q: seq<nat>)
      requires Valid() && !built
      ensures Level(nodes, word, id, added, q, 0, {0})
    {
      hide Unlinked, Trie, Frontier, HalfClosed, Level;
      q := [];
      StartRoot(nodes, word, id, added);
      var keys := nodes[0].next.Keys;
      while keys != {}
        invariant keys <= nodes[0].next.Keys
        invariant Frontier(nodes, word, id, q, 0, {}) && HalfClosed(nodes, word, id, q, {}, 0, keys)
        invariant forall i :: 0 <= i < |q| ==> q[i] < |word| && |word[q[i]]| == 1
        decreases keys
      {
        var ch :| ch in keys;
        EnqueueChild(nodes, word, id, q, 0, {}, 0, keys, ch);
        q := q + [nodes[0].next[ch]];
        keys := keys - {ch};
      }
      FinishRoot(nodes, word, id, added, q);
    }

    /** Build's inner loop: link and enqueue the children of r, which was just dequeued. */
    method Visit(r: nat, queue: seq<nat>, ghost E: seq<nat>, ghost h: nat, ghost done: set<nat>)
      returns (q: seq<nat>, ghost E': seq<nat>)
      requires !built && Level(nodes, word, id, added, E, h, done)
      requires h < |E| && E[h] == r && E[h + 1..] == queue
      modifies this`nodes
      ensures SameEdges(old(nodes), nodes)
      ensures Level(nodes, word, id, added, E', h + 1, done + {r})
      ensures h + 1 <= |E'| && E'[h + 1..] == q
    {
      hide Level, Processing, Progress, Frontier, Closed, HalfClosed, Trie, Linked, Raw, PatternsIn;
      StartLevel(nodes, word, id, added, E, h, done);
      q, E' := queue, E;
      var keys := nodes[r].next.Keys;
      while keys != {}
        invariant SameEdges(old(nodes), nodes)
        invariant keys <= nodes[r].next.Keys
        invariant Processing(nodes, word, id, added, E', h, done, r, keys)
        invariant E <= E' && E'[h + 1..] == q
        decreases keys
      {
        var ch :| ch in keys;
        ghost var before := nodes;
        BeforeLink(nodes, word, id, added, E', h, done, r, keys, ch);
        var u := nodes[r].next[ch];
        q := q + [u];
        Link(r, ch, E');
        AfterLink(before, nodes, word, id, added, E', h, done, r, keys, ch);
        E' := E' + [u];
        keys := keys - {ch};
      }
      FinishProcessing(nodes, word, id, added, E', h, done, r);
    }

    /** Link every node, breadth first. order lists the nodes as they leave the queue. */
    method Build() returns (ghost order: seq<nat>)
      requires Valid() && !built
      modifies this
      ensures Valid() && built
      ensures added == old(added) && word == old(word) && id == old(id) && SameEdges(old(nodes), nodes)
      // every node but the root is enqueued, exactly once, and shallower nodes first
      ensures BreadthFirst(nodes, word, order)
    {
      hide Level, Frontier, Closed, Progress, Trie, Linked, Raw, PatternsIn, BreadthFirst;
      var q := EnqueueRootChildren();
      order := q;
      ghost var h, done := 0, {0};
      while |q| > 0
        invariant !built && added == old(added) && word == old(word) && id == old(id)
        invariant SameEdges(old(nodes), nodes)
        invariant Level(nodes, word, id, added, order, h, done)
        invariant h <= |order| && order[h..] == q
        decreases Unprocessed(|nodes|) - done
      {
        StillUnprocessed(nodes, word, id, added, order, h, done);
        var r := q[0];
        q := q[1..];
        q, order := Visit(r, q, order, h, done);
        h, done := h + 1, done + {r};
      }
      AllProcessed(nodes, word, id, added, order, h, done);
      built := true;
    }

    /** Read one character: follow failure links until a child on ch is found, or the root. */
    method Advance(state: nat, ch: char, ghost t: Word) returns (next: nat, ghost hops: nat)
      requires Valid() && built
      requires state < |nodes| == |word| && [] in id && word[state] == LongestIn(t, id.Keys)
      ensures next < |nodes| && word[next] == LongestIn(t + [ch], id.Keys)
      // one hop for each failure link followed
      ensures hops == Hops(word[state], ch, id.Keys)
    {
      hide AllLinked, Trie, Linked, PatternsIn, PrefixClosed;
      ScanStart(nodes, word, id, added);
      LongestStep(t, ch, id.Keys);
      next, hops := state, 0;
      while next != 0 && ch !in nodes[next].next
        invariant next < |nodes| == |word|
        invariant Follow(word[next], ch, id.Keys) == LongestIn(t + [ch], id.Keys)
        invariant hops + Hops(word[next], ch, id.Keys) == Hops(word[state], ch, id.Keys)
        decreases |word[next]|
      {
        HopLinked(nodes, word, id, added, next, ch);
        next := nodes[next].fail;
        hops := hops + 1;
      }
      StopLinked(nodes, word, id, added, next, ch);
      if ch in nodes[next].next {
        next := nodes[next].next[ch];
      }
    }

    /** Scan text once. The matches are those of the naive search, sorted by start, end and rule ID,
        and over the whole scan no more failure links are followed than characters are read. */
    method FindAll(text: Word) returns (res: seq<Match>, ghost hops: nat)
      requires Valid() && built
      ensures res == StableSort(MatchLess, NaiveSearch(added, text))
      ensures Ascending(res) && forall m :: multiset(res)[m] == Occurrences(added, text, m)
      ensures [] in id && hops == ScanHops(text, id.Keys) <= |text|
    {
      hide AllLinked, Trie, Linked, PatternsIn, PrefixClosed, StableSort, LongestIn, Scan, Hops, NaiveSearch, Occurrences, Ascending;
      ScanStart(nodes, word, id, added);
      EmptyScan(added);
      var out: seq<Match> := [];
      var state: nat := 0;
      hops := 0;
      for i := 0 to |text|
        invariant state < |nodes| == |word| && word[state] == LongestIn(text[..i], id.Keys)
        invariant out == Scan(added, text[..i])
        invariant hops == ScanHops(text[..i], id.Keys)
      {
        ghost var step: nat;
        state, step := Advance(state, text[i], text[..i]);
        hops := hops + step;
        assert text[..i + 1] == text[..i] + [text[i]] && text[..i + 1][..i] == text[..i];
        Reported(nodes, word, id, added, state, text[..i + 1]);
        ScanStep(added, text, i);
        out := AppendReports(out, nodes[state].out, i);
      }
      assert text[..|text|] == text;
      res := StableSort(MatchLess, out);
      ScanIsLinear(text, id.Keys);
      PatternsNonEmpty(nodes, word, id, added);
      ScanRefinesNaive(added, text);
      SortedSearchExact(added, text);
    }
  }

  /** The scan's innermost loop: one report for each output of the state reached after text[i]. */
  method AppendReports(out: seq<Match>, outs: seq<Out>, i: nat) returns (res: seq<Match>)
    ensures res == out + Report(outs, i + 1)
  {
    res := out;
    for j := 0 to |outs|
      invariant res == out + Report(outs[..j], i + 1)
    {
      var o := outs[j];
      assert outs[..j + 1] == outs[..j] + [o];
      ReportAppend(outs[..j], [o], i + 1);
      assert Report([o], i + 1) == [Match(i + 1 - |o.pat|, i + 1, o.payload)] + Report([], i + 1);
      res := res + [Match(i - |o.pat| + 1, i + 1, o.payload)];
    }
    assert outs[..|outs|] == outs;
  }
}
