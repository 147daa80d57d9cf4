/**
 * The chatbot's phrase trie (utils/dsa.ts, feature 9). Phrases are stored
 * lower-cased, one character per edge; a lookup succeeds only on a terminal
 * node whose response is a non-empty string.
 *
 * Node objects are held in a table and addressed by position, so
 * `children` maps a character to a table index; the root is entry 0.
 * The ghost map `index` names the node each stored path leads to, and the
 * ghost map `contents` is the dictionary the trie represents.
 */
module ChatTrie {
  import opened Types
  import opened Text

  datatype TrieNode = TrieNode(children: map<char, nat>, isEndOfWord: bool, response: Option<string>)

  /** `new TrieNode()`. */
  const EmptyNode := TrieNode(map[], false, None)

  /** What `search` answers for a lower-cased key: the stored response, unless it is missing or empty. */
  function Lookup(contents: map<string, string>, key: string): Option<string>
  {
    if key in contents && contents[key] != "" then Some(contents[key]) else None
  }

  /** `if (node.isEndOfWord && node.response)`: terminal, with a truthy response. */
  predicate Answers(n: TrieNode)
  {
    n.isEndOfWord && n.response.Some? && n.response.value != ""
  }

  function Last(s: string): char
    requires s != []
  {
    s[|s| - 1]
  }

  /** No two nodes spell the same path. */
  ghost predicate DistinctPaths(paths: seq<string>)
  {
    forall m, n :: 0 <= m < n < |paths| ==> paths[m] != paths[n]
  }

  /** Each edge leads to a node whose path is one character longer. */
  ghost predicate EdgesSpell(nodes: seq<TrieNode>, paths: seq<string>)
    requires |paths| == |nodes|
  {
    forall n, c :: 0 <= n < |nodes| && c in nodes[n].children ==>
      nodes[n].children[c] < |nodes| && paths[nodes[n].children[c]] == paths[n] + [c]
  }

  /** Each non-root node hangs under an older node, by the last character of its path. */
  ghost predicate ParentLinks(nodes: seq<TrieNode>, paths: seq<string>, parent: seq<nat>)
    requires |paths| == |nodes| && |parent| == |nodes|
  {
    forall m {:trigger parent[m]} :: 0 < m < |nodes| ==>
      parent[m] < m && paths[m] != [] && paths[m] == paths[parent[m]] + [Last(paths[m])] &&
      Last(paths[m]) in nodes[parent[m]].children && nodes[parent[m]].children[Last(paths[m])] == m
  }

  /** A node is terminal exactly when its path is stored, and then it carries the stored response. */
  ghost predicate EndsStored(nodes: seq<TrieNode>, paths: seq<string>, contents: map<string, string>)
    requires |paths| == |nodes|
  {
    && (forall n :: 0 <= n < |nodes| ==> (nodes[n].isEndOfWord <==> paths[n] in contents))
    && (forall n :: 0 <= n < |nodes| && nodes[n].isEndOfWord ==> nodes[n].response == Some(contents[paths[n]]))
    && (forall s :: s in contents ==> s in paths)
  }

  /**
   * The node table, the ghost path of every node, the ghost parent of every
   * non-root node and the dictionary agree: node `n` is reached from the root
   * by spelling `paths[n]`, and it is terminal exactly when `paths[n]` is stored.
   */
  ghost predicate ValidTrie(nodes: seq<TrieNode>, paths: seq<string>, parent: seq<nat>, contents: map<string, string>)
  {
    && |nodes| > 0 && |paths| == |nodes| && |parent| == |nodes|
    && paths[0] == ""
    && DistinctPaths(paths)
    && EdgesSpell(nodes, paths)
    && ParentLinks(nodes, paths, parent)
    && EndsStored(nodes, paths, contents)
  }

  /** Every prefix of a node's path is the path of some node. */
  lemma {:induction false} Ancestor(nodes: seq<TrieNode>, paths: seq<string>, parent: seq<nat>, contents: map<string, string>,
                                    m: nat, k: nat) returns (a: nat)
    requires ValidTrie(nodes, paths, parent, contents)
    requires m < |nodes| && k <= |paths[m]|
    ensures a < |nodes| && paths[a] == paths[m][..k]
    decreases m
  {
    if k == |paths[m]| {
      assert paths[m][..k] == paths[m];
      a := m;
    } else {
      var p := parent[m];
      assert paths[m] == paths[p] + [Last(paths[m])];
      assert paths[m][..k] == paths[p][..k];
      a := Ancestor(nodes, paths, parent, contents, p, k);
    }
  }

  /** With no edge `c` under `n`, no node has the path `paths[n] + [c]`. */
  lemma NoSuchNode(nodes: seq<TrieNode>, paths: seq<string>, parent: seq<nat>, contents: map<string, string>, n: nat, c: char)
    requires ValidTrie(nodes, paths, parent, contents)
    requires n < |nodes| && c !in nodes[n].children
    ensures forall m :: 0 <= m < |nodes| ==> paths[m] != paths[n] + [c]
  {
    forall m | 0 <= m < |nodes| ensures paths[m] != paths[n] + [c] {
      if m > 0 && Last(paths[m]) == c {
        var p := parent[m];
        assert p != n;
        assert paths[m][..|paths[m]| - 1] == paths[p] != paths[n];
        assert (paths[n] + [c])[..|paths[n]|] == paths[n];
      }
    }
  }

  /** Walking off the tree at the node spelling `key[..k]` means `key` is not stored. */
  lemma LeavesTree(nodes: seq<TrieNode>, paths: seq<string>, parent: seq<nat>, contents: map<string, string>,
                   key: string, k: nat, n: nat)
    requires ValidTrie(nodes, paths, parent, contents)
    requires k < |key| && n < |nodes| && paths[n] == key[..k] && key[k] !in nodes[n].children
    ensures key !in contents
  {
    if key in contents {
      var m :| 0 <= m < |paths| && paths[m] == key;
      var a := Ancestor(nodes, paths, parent, contents, m, k + 1);
      assert key[..k + 1] == key[..k] + [key[k]];
      NoSuchNode(nodes, paths, parent, contents, n, key[k]);
      assert false;
    }
  }

  /** The table after hanging a fresh node under `n` by `c`. */
  function AddChild(nodes: seq<TrieNode>, n: nat, c: char): seq<TrieNode>
    requires n < |nodes|
  {
    nodes[n := nodes[n].(children := nodes[n].children[c := |nodes|])] + [EmptyNode]
  }

  /** Hanging a fresh node under `n` by `c` keeps the trie valid. */
  lemma AddChildValid(nodes: seq<TrieNode>, paths: seq<string>, parent: seq<nat>, contents: map<string, string>, n: nat, c: char)
    requires ValidTrie(nodes, paths, parent, contents)
    requires n < |nodes| && c !in nodes[n].children
    ensures ValidTrie(AddChild(nodes, n, c), paths + [paths[n] + [c]], parent + [n], contents)
  {
    NoSuchNode(nodes, paths, parent, contents, n, c);
    AddChildDistinct(paths, n, c);
    AddChildEdges(nodes, paths, n, c);
    AddChildParents(nodes, paths, parent, n, c);
    AddChildEnds(nodes, paths, contents, n, c);
  }

  lemma AddChildDistinct(paths: seq<string>, n: nat, c: char)
    requires DistinctPaths(paths) && n < |paths|
    requires forall m :: 0 <= m < |paths| ==> paths[m] != paths[n] + [c]
    ensures DistinctPaths(paths + [paths[n] + [c]])
  {
  }

  lemma AddChildEdges(nodes: seq<TrieNode>, paths: seq<string>, n: nat, c: char)
    requires |paths| == |nodes| && n < |nodes| && EdgesSpell(nodes, paths)
    ensures EdgesSpell(AddChild(nodes, n, c), paths + [paths[n] + [c]])
  {
    var nodes', paths' := AddChild(nodes, n, c), paths + [paths[n] + [c]];
    forall i, d | 0 <= i < |nodes'| && d in nodes'[i].children
      ensures nodes'[i].children[d] < |nodes'| && paths'[nodes'[i].children[d]] == paths'[i] + [d]
    {
      if i == n && d == c {
      } else if i < |nodes| {
        assert nodes'[i].children[d] == nodes[i].children[d];
      }
    }
  }

  lemma AddChildParents(nodes: seq<TrieNode>, paths: seq<string>, parent: seq<nat>, n: nat, c: char)
    requires |paths| == |nodes| && |parent| == |nodes| && n < |nodes| && c !in nodes[n].children
    requires ParentLinks(nodes, paths, parent)
    ensures ParentLinks(AddChild(nodes, n, c), paths + [paths[n] + [c]], parent + [n])
  {
    var nodes', paths', parent' := AddChild(nodes, n, c), paths + [paths[n] + [c]], parent + [n];
    forall m | 0 < m < |nodes'|
      ensures parent'[m] < m && paths'[m] != [] && paths'[m] == paths'[parent'[m]] + [Last(paths'[m])]
      ensures Last(paths'[m]) in nodes'[parent'[m]].children && nodes'[parent'[m]].children[Last(paths'[m])] == m
    {
      if m < |nodes| {
        assert parent'[m] == parent[m];
        assert paths'[m] == paths[m] && paths'[parent[m]] == paths[parent[m]];
      } else {
        assert Last(paths'[m]) == c;
      }
    }
  }

  lemma AddChildEnds(nodes: seq<TrieNode>, paths: seq<string>, contents: map<string, string>, n: nat, c: char)
    requires |paths| == |nodes| && n < |nodes| && EndsStored(nodes, paths, contents)
    requires forall m :: 0 <= m < |paths| ==> paths[m] != paths[n] + [c]
    ensures EndsStored(AddChild(nodes, n, c), paths + [paths[n] + [c]], contents)
  {
    var nodes', paths' := AddChild(nodes, n, c), paths + [paths[n] + [c]];
    forall i | 0 <= i < |nodes'| ensures (nodes'[i].isEndOfWord <==> paths'[i] in contents) {
      if i == |nodes| {
        assert paths'[i] !in paths;
      }
    }
    forall s | s in contents ensures s in paths' {
      var i :| 0 <= i < |paths| && paths[i] == s;
      assert paths'[i] == s;
    }
  }

  /** Marking node `n` terminal with `response` stores that response under its path. */
  lemma MarkEndValid(nodes: seq<TrieNode>, paths: seq<string>, parent: seq<nat>, contents: map<string, string>, n: nat, response: string)
    requires ValidTrie(nodes, paths, parent, contents)
    requires n < |nodes|
    ensures ValidTrie(nodes[n := nodes[n].(isEndOfWord := true, response := Some(response))],
                      paths, parent, contents[paths[n] := response])
  {
    var nodes' := nodes[n := nodes[n].(isEndOfWord := true, response := Some(response))];
    var contents' := contents[paths[n] := response];
    forall m | 0 <= m < |nodes| ensures (nodes'[m].isEndOfWord <==> paths[m] in contents') {
      if m != n {
        assert paths[m] != paths[n];
      }
    }
  }

  class ChatTrie {
    var nodes: seq<TrieNode>
    ghost var paths: seq<string>
    ghost var parent: seq<nat>
    ghost var contents: map<string, string>

    ghost predicate Valid()
      reads this
    {
      ValidTrie(nodes, paths, parent, contents)
    }

    /** `new ChatTrie()`: a lone root node, storing nothing. */
    constructor ()
      ensures Valid()
      ensures contents == map[]
    {
      nodes := [EmptyNode];
      paths := [""];
      parent := [0];
      contents := map[];
    }

    /** `insert(phrase, response)`: walk the lower-cased phrase, creating missing nodes, then mark the last one. */
    method Insert(phrase: string, response: string)
      requires Valid()
      modifies this
      ensures Valid()
      ensures contents == old(contents)[Lower(phrase) := response]
    {
      var key := Lower(phrase);
      var node: nat := 0;
      for k := 0 to |key|
        invariant Valid()
        invariant contents == old(contents)
        invariant node < |nodes| && paths[node] == key[..k]
      {
        var c := key[k];
        assert key[..k + 1] == key[..k] + [c];
        if c !in nodes[node].children {
          Grow(node, c);
        }
        node := nodes[node].children[c];
      }
      assert key[..|key|] == key;
      MarkEndValid(nodes, paths, parent, contents, node, response);
      nodes := nodes[node := nodes[node].(isEndOfWord := true, response := Some(response))];
      contents := contents[key := response];
    }

    /** `node.children.set(char, new TrieNode())`: a fresh node under `node` by `c`. */
    method Grow(node: nat, c: char)
      requires Valid() && node < |nodes| && c !in nodes[node].children
      modifies this
      ensures Valid()
      ensures nodes == AddChild(old(nodes), node, c)
      ensures paths == old(paths) + [old(paths)[node] + [c]]
      ensures parent == old(parent) + [node]
      ensures contents == old(contents)
    {
      AddChildValid(nodes, paths, parent, contents, node, c);
      paths := paths + [paths[node] + [c]];
      parent := parent + [node];
      nodes := AddChild(nodes, node, c);
    }

    /** `search(phrase)`: follow the lower-cased phrase; answer only at a terminal node with a non-empty response. */
    method Search(phrase: string) returns (r: Option<string>)
      requires Valid()
      ensures r == Lookup(contents, Lower(phrase))
    {
      var key := Lower(phrase);
      var node: nat := 0;
      for k := 0 to |key|
        invariant node < |nodes| && paths[node] == key[..k]
      {
        var c := key[k];
        if c !in nodes[node].children {
          LeavesTree(nodes, paths, parent, contents, key, k, node);
          return None;
        }
        assert key[..k + 1] == key[..k] + [c];
        node := nodes[node].children[c];
      }
      assert key[..|key|] == key;
      if Answers(nodes[node]) {
        return nodes[node].response;
      }
      return None;
    }
  }

  /** After storing `r` under `k`, lookups of `k` give `r` (when non-empty) and every other key is unaffected. */
  lemma LookupAfterStore(contents: map<string, string>, k: string, r: string, q: string)
    ensures Lookup(contents[k := r], q) == (if q == k then (if r == "" then None else Some(r)) else Lookup(contents, q))
  {
  }

  /** The chatbot's greeting entry: matched in any case, but a strict prefix of it is not. */
  method GreetingScenario() returns (exact: Option<string>, shouted: Option<string>, prefix: Option<string>)
    ensures exact == Some("Hello! How can I help you with placement data?")
    ensures shouted == exact
    ensures prefix == None
  {
    var trie := new ChatTrie();
    trie.Insert("hello", "Hello! How can I help you with placement data?");
    assert Lower("hello") == "hello";
    assert Lower("HELLO") == "hello";
    assert Lower("hell") == "hell";
    exact := trie.Search("hello");
    shouted := trie.Search("HELLO");
    prefix := trie.Search("hell");
  }
}
