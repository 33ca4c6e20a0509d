// The driver of the Propeller profile creator (create_reg_prof.cc): the
// options built from its command-line flags, in particular the list of
// perf profiles, and the depth-first walk over a control-flow graph that
// lists each hot function's blocks.

module CreateRegProf {
  import opened Text

  // -------------------------------------------------------------------------
  // Options from flags

  /** The command-line flags the options are built from. */
  datatype Flags = Flags(binary: string, profile: string, out: string, propellerSymorder: string)

  /** The symbol-order output path every run uses. */
  const SYMBOL_ORDER_OUT_NAME := "./symbol_order.txt"

  /** The Propeller options the driver hands to the profile writer. */
  datatype PropellerOptions = PropellerOptions(
    binaryName: string,
    perfNames: seq<string>,
    clusterOutName: string,
    symbolOrderOutName: string,
    profiledBinaryName: string,
    ignoreBuildId: bool)

  /** Whether `line` names a perf profile: it is not empty and, when
    * `skipComments`, does not start with '#'. */
  predicate IsPerfName(line: string, skipComments: bool)
  {
    |line| > 0 && !(skipComments && line[0] == '#')
  }

  /** The lines of `lines` that name perf profiles, in order. */
  function PerfNamesIn(lines: seq<string>, skipComments: bool): (names: seq<string>)
    ensures |names| <= |lines|
    ensures forall n :: n in names <==> n in lines && IsPerfName(n, skipComments)
  {
    if |lines| == 0 then []
    else
      var last := lines[|lines| - 1];
      var front := lines[..|lines| - 1];
      assert lines == front + [last];
      PerfNamesIn(front, skipComments) + (if IsPerfName(last, skipComments) then [last] else [])
  }

  /** The perf profiles a `--profile` value names: with a leading '@', the
    * lines of the list file the rest names that are neither empty nor
    * comments (none when the file cannot be read); otherwise the non-empty
    * pieces between its ';'s. */
  function PerfNames(profile: string, files: map<string, seq<string>>): (names: seq<string>)
    ensures forall n :: n in names ==> |n| > 0
    ensures |profile| > 0 && profile[0] == '@' ==>
      forall n :: n in names ==> profile[1..] in files && n in files[profile[1..]] && n[0] != '#'
    ensures !(|profile| > 0 && profile[0] == '@') ==> forall n :: n in names ==> n in Split(profile, ';')
  {
    if |profile| > 0 && profile[0] == '@' then
      var path := profile[1..];
      PerfNamesIn(if path in files then files[path] else [], true)
    else
      PerfNamesIn(Split(profile, ';'), false)
  }

  /** Builds the options: the perf names of `--profile`, the binary, the
    * cluster output, and fixed symbol-order, profiled-binary and build-id
    * settings. The list file is read line by line from `files`. */
  method CreatePropellerOptionsFromFlags(flags: Flags, files: map<string, seq<string>>)
    returns (options: PropellerOptions)
    ensures options.perfNames == PerfNames(flags.profile, files)
    ensures options.binaryName == flags.binary && options.clusterOutName == flags.out
    ensures options.symbolOrderOutName == SYMBOL_ORDER_OUT_NAME
    ensures options.profiledBinaryName == "" && !options.ignoreBuildId
  {
    var pstr := flags.profile;
    var names: seq<string>;
    if |pstr| > 0 && pstr[0] == '@' {
      var path := pstr[1..];
      names := CollectPerfNames(if path in files then files[path] else [], true);
    } else {
      names := CollectPerfNames(Split(pstr, ';'), false);
    }
    options := PropellerOptions(flags.binary, names, flags.out, SYMBOL_ORDER_OUT_NAME, "", false);
  }

  /** The loop that keeps the lines naming perf profiles, in order. */
  method CollectPerfNames(lines: seq<string>, skipComments: bool) returns (names: seq<string>)
    ensures names == PerfNamesIn(lines, skipComments)
  {
    names := [];
    var i := 0;
    while i < |lines|
      invariant 0 <= i <= |lines|
      invariant names == PerfNamesIn(lines[..i], skipComments)
    {
      assert lines[..i + 1][..i] == lines[..i];
      if |lines[i]| > 0 && !(skipComments && lines[i][0] == '#') {
        names := names + [lines[i]];
      }
      i := i + 1;
    }
    assert lines[..i] == lines;
  }

  /** Filtering a concatenation filters each part. */
  lemma {:induction false} PerfNamesInAppend(a: seq<string>, b: seq<string>, skipComments: bool)
    ensures PerfNamesIn(a + b, skipComments) == PerfNamesIn(a, skipComments) + PerfNamesIn(b, skipComments)
    decreases |b|
  {
    if |b| == 0 {
      assert a + b == a;
    } else {
      var front := b[..|b| - 1];
      var last := b[|b| - 1];
      PerfNamesInAppend(a, front, skipComments);
      SplitLast(a, b);
      PerfNamesInSnoc(a + front, last, skipComments);
      PerfNamesInSnoc(front, last, skipComments);
    }
  }

  /** A non-empty sequence, alone or after another, is its front and its
    * last element. */
  lemma SplitLast<T>(a: seq<T>, b: seq<T>)
    requires |b| > 0
    ensures a + b == (a + b[..|b| - 1]) + [b[|b| - 1]]
    ensures b == b[..|b| - 1] + [b[|b| - 1]]
  {
  }

  /** Filtering one more line appends it when it names a profile. */
  lemma PerfNamesInSnoc(lines: seq<string>, last: string, skipComments: bool)
    ensures PerfNamesIn(lines + [last], skipComments) ==
      PerfNamesIn(lines, skipComments) + (if IsPerfName(last, skipComments) then [last] else [])
  {
    assert (lines + [last])[..|lines|] == lines;
  }

  /** A single line is kept exactly when it names a profile. */
  lemma PerfNamesInOne(line: string, skipComments: bool)
    ensures PerfNamesIn([line], skipComments) == if IsPerfName(line, skipComments) then [line] else []
  {
    assert [line][..0] == [];
  }

  /** Filtering keeps every line when every line names a profile. */
  lemma {:induction false} PerfNamesInKeepsAll(lines: seq<string>, skipComments: bool)
    requires forall k :: 0 <= k < |lines| ==> IsPerfName(lines[k], skipComments)
    ensures PerfNamesIn(lines, skipComments) == lines
  {
    if |lines| > 0 {
      var front := lines[..|lines| - 1];
      PerfNamesInKeepsAll(front, skipComments);
      assert lines == front + [lines[|lines| - 1]];
    }
  }

  /** Joining non-empty names without ';' with ';' gives them back, unless
    * the first starts with '@'. */
  lemma PerfNamesJoined(names: seq<string>, files: map<string, seq<string>>)
    requires |names| > 0
    requires forall k :: 0 <= k < |names| ==> |names[k]| > 0 && ';' !in names[k]
    requires names[0][0] != '@'
    ensures PerfNames(Join(names, ';'), files) == names
  {
    var profile := Join(names, ';');
    assert profile[..|names[0]|] == names[0] by {
      if |names| > 1 {
        assert profile == names[0] + [';'] + Join(names[1..], ';');
      }
    }
    assert profile[0] == names[0][0];
    SplitJoin(names, ';');
    PerfNamesInKeepsAll(names, false);
  }

  /** A list file whose lines are all profile names gives those names. */
  lemma ListFileNames(path: string, files: map<string, seq<string>>)
    requires path in files
    requires forall k :: 0 <= k < |files[path]| ==> IsPerfName(files[path][k], true)
    ensures PerfNames("@" + path, files) == files[path]
  {
    assert ("@" + path)[1..] == path;
    PerfNamesInKeepsAll(files[path], true);
  }

  // -------------------------------------------------------------------------
  // Depth-first walk over a control-flow graph

  /** An intra-function edge between two CFG nodes. */
  datatype Edge = Edge(source: nat, sink: nat)

  /** A CFG: the intra-function out-edges of each node. */
  type Graph = map<nat, seq<Edge>>

  /** Every edge leaves the node it is listed under and enters a node of the
    * graph. */
  predicate Closed(graph: Graph)
  {
    forall n :: n in graph ==> forall e :: e in graph[n] ==> e.source == n && e.sink in graph
  }

  /** Whether an edge of `graph` leads from `a` to `b`. */
  predicate IsSuccessor(graph: Graph, a: nat, b: nat)
  {
    a in graph && exists e :: e in graph[a] && e.sink == b
  }

  /** Whether `p` is a walk along the edges of `graph`. */
  ghost predicate IsPath(graph: Graph, p: seq<nat>)
  {
    |p| > 0 && forall k :: 0 <= k < |p| - 1 ==> IsSuccessor(graph, p[k], p[k + 1])
  }

  /** Whether a walk leads from `a` to `b`. */
  ghost predicate Reachable(graph: Graph, a: nat, b: nat)
  {
    exists p :: IsPath(graph, p) && p[0] == a && p[|p| - 1] == b
  }

  /** No element of `s` occurs twice. */
  predicate Distinct(s: seq<nat>)
  {
    forall j, k :: 0 <= j < k < |s| ==> s[j] != s[k]
  }

  /** Every element of `s` after position `from` is entered by an edge from
    * an element at or after `from` that comes before it. */
  ghost predicate ParentsFirst(graph: Graph, s: seq<nat>, from: nat)
  {
    forall k :: from < k < |s| ==> HasParentBefore(graph, s, from, k)
  }

  /** Element `k` of `s` is entered by an edge from an element at or after
    * `from` that comes before it. */
  ghost predicate HasParentBefore(graph: Graph, s: seq<nat>, from: nat, k: nat)
    requires k < |s|
  {
    exists j :: from <= j < k && IsSuccessor(graph, s[j], s[k])
  }

  /** Every node is reachable from itself. */
  lemma ReachableSelf(graph: Graph, a: nat)
    ensures Reachable(graph, a, a)
  {
    assert IsPath(graph, [a]);
  }

  /** A walk from a successor of `a` extends to a walk from `a`. */
  lemma ReachableThrough(graph: Graph, a: nat, b: nat, c: nat)
    requires IsSuccessor(graph, a, b) && Reachable(graph, b, c)
    ensures Reachable(graph, a, c)
  {
    var p :| IsPath(graph, p) && p[0] == b && p[|p| - 1] == c;
    var q := [a] + p;
    assert forall k :: 0 < k < |q| - 1 ==> q[k] == p[k - 1] && q[k + 1] == p[k];
    assert IsPath(graph, q);
  }

  /** A set that holds `a` and every successor of its members holds every
    * node reachable from `a`. */
  lemma ClosedSetHoldsReachable(graph: Graph, s: set<nat>, a: nat, b: nat)
    requires a in s && Reachable(graph, a, b)
    requires forall n, e :: n in s && n in graph && e in graph[n] ==> e.sink in s
    ensures b in s
  {
    var p :| IsPath(graph, p) && p[0] == a && p[|p| - 1] == b;
    var k := 0;
    while k < |p| - 1
      invariant 0 <= k < |p| && p[k] in s
    {
      assert IsSuccessor(graph, p[k], p[k + 1]);
      k := k + 1;
    }
  }

  /** Appending to a sequence keeps its earlier parents. */
  lemma ParentsFirstExtend(graph: Graph, s: seq<nat>, t: seq<nat>, from: nat)
    requires ParentsFirst(graph, s, from)
    requires from < |s| <= |t| && t[..|s|] == s
    requires ParentsFirst(graph, t, |s|)
    requires |t| > |s| ==> HasParentBefore(graph, t, from, |s|)
    ensures ParentsFirst(graph, t, from)
  {
    forall k | from < k < |t|
      ensures HasParentBefore(graph, t, from, k)
    {
      if k < |s| {
        assert HasParentBefore(graph, s, from, k);
        var j :| from <= j < k && IsSuccessor(graph, s[j], s[k]);
        assert t[j] == s[j] && t[k] == s[k];
        assert IsSuccessor(graph, t[j], t[k]);
      } else if k > |s| {
        assert HasParentBefore(graph, t, |s|, k);
        var j :| |s| <= j < k && IsSuccessor(graph, t[j], t[k]);
        assert from <= j;
      }
    }
  }

  /** Fewer nodes of the graph remain unvisited once `node` is visited. */
  lemma FewerUnvisited(keys: set<nat>, before: set<nat>, after: set<nat>, node: nat)
    requires node in keys && node !in before && before + {node} <= after
    ensures |keys - after| < |keys - before|
  {
    assert keys - after <= keys - before - {node};
    assert |keys - after| <= |keys - before - {node}| by {
      SubsetSize(keys - after, keys - before - {node});
    }
  }

  /** A subset is no larger than its superset. */
  lemma {:induction false} SubsetSize(a: set<nat>, b: set<nat>)
    requires a <= b
    ensures |a| <= |b|
    decreases |b|
  {
    if a != {} {
      var x :| x in a;
      SubsetSize(a - {x}, b - {x});
    }
  }

  /** Which of the walk's optional callbacks are given: the one called on
    * each node when it is first entered, and the one called on each edge
    * before it is followed. */
  datatype Callbacks = Callbacks(onNode: bool, onEdge: bool)

  /** What a walk has done so far: the nodes it visited, and what the node
    * and edge callbacks were handed, in order. */
  datatype Walked = Walked(visited: set<nat>, nodes: seq<nat>, edges: seq<Edge>)

  /** The walk from `node`: nothing when it was visited; otherwise it is
    * marked, handed to the node callback, and its out-edges are walked. */
  function Walk(graph: Graph, cb: Callbacks, node: nat, st: Walked): (r: Walked)
    requires Closed(graph) && node in graph && st.visited <= graph.Keys
    ensures st.visited <= r.visited <= graph.Keys && node in r.visited
    ensures |st.nodes| <= |r.nodes| && r.nodes[..|st.nodes|] == st.nodes
    ensures |st.edges| <= |r.edges| && r.edges[..|st.edges|] == st.edges
    ensures node in st.visited ==> r == st
    ensures cb.onNode && node !in st.visited ==> |r.nodes| > |st.nodes| && r.nodes[|st.nodes|] == node
    ensures !cb.onNode ==> r.nodes == st.nodes
    ensures !cb.onEdge ==> r.edges == st.edges
    decreases |graph.Keys - st.visited|, 0, 0
  {
    if node in st.visited then st
    else
      var entered := Walked(st.visited + {node}, st.nodes + (if cb.onNode then [node] else []), st.edges);
      FewerUnvisited(graph.Keys, st.visited, entered.visited, node);
      WalkEdges(graph, cb, node, 0, entered)
  }

  /** The rest of the walk from `node`'s out-edges, from its `i`th on: each
    * is handed to the edge callback and its sink walked. */
  function WalkEdges(graph: Graph, cb: Callbacks, node: nat, i: nat, st: Walked): (r: Walked)
    requires Closed(graph) && node in graph && st.visited <= graph.Keys && i <= |graph[node]|
    ensures st.visited <= r.visited <= graph.Keys
    ensures |st.nodes| <= |r.nodes| && r.nodes[..|st.nodes|] == st.nodes
    ensures |st.edges| <= |r.edges| && r.edges[..|st.edges|] == st.edges
    ensures !cb.onNode ==> r.nodes == st.nodes
    ensures !cb.onEdge ==> r.edges == st.edges
    decreases |graph.Keys - st.visited|, 1, |graph[node]| - i
  {
    if i == |graph[node]| then st
    else
      var e := graph[node][i];
      var handed := Walked(st.visited, st.nodes, st.edges + (if cb.onEdge then [e] else []));
      var walked := Walk(graph, cb, e.sink, handed);
      SubsetSize(graph.Keys - walked.visited, graph.Keys - st.visited);
      var r := WalkEdges(graph, cb, node, i + 1, walked);
      PrefixOfPrefix(st.nodes, walked.nodes, r.nodes);
      PrefixOfPrefix(st.edges, handed.edges, walked.edges);
      PrefixOfPrefix(st.edges, walked.edges, r.edges);
      r
  }

  lemma PrefixOfPrefix<T>(a: seq<T>, b: seq<T>, c: seq<T>)
    requires |a| <= |b| && b[..|a|] == a
    requires |b| <= |c| && c[..|b|] == b
    ensures c[..|a|] == a
  {
    assert c[..|a|] == c[..|b|][..|a|];
  }

  // Reachability: the walk visits only nodes reachable from where it starts.

  /** Every node a walk newly visits is reachable from its start. */
  lemma {:induction false} WalkReachable(graph: Graph, cb: Callbacks, node: nat, st: Walked)
    requires Closed(graph) && node in graph && st.visited <= graph.Keys
    ensures var r := Walk(graph, cb, node, st);
      forall n :: n in r.visited - st.visited ==> Reachable(graph, node, n)
    decreases |graph.Keys - st.visited|, 0, 0
  {
    if node !in st.visited {
      var entered := Walked(st.visited + {node}, st.nodes + (if cb.onNode then [node] else []), st.edges);
      FewerUnvisited(graph.Keys, st.visited, entered.visited, node);
      WalkEdgesReachable(graph, cb, node, 0, entered);
      ReachableSelf(graph, node);
    }
  }

  /** Every node newly visited while walking `node`'s out-edges is reachable
    * from `node`. */
  lemma {:induction false} WalkEdgesReachable(graph: Graph, cb: Callbacks, node: nat, i: nat, st: Walked)
    requires Closed(graph) && node in graph && st.visited <= graph.Keys && i <= |graph[node]|
    ensures var r := WalkEdges(graph, cb, node, i, st);
      forall n :: n in r.visited - st.visited ==> Reachable(graph, node, n)
    decreases |graph.Keys - st.visited|, 1, |graph[node]| - i
  {
    if i < |graph[node]| {
      var e := graph[node][i];
      var handed := Walked(st.visited, st.nodes, st.edges + (if cb.onEdge then [e] else []));
      var walked := Walk(graph, cb, e.sink, handed);
      SubsetSize(graph.Keys - walked.visited, graph.Keys - st.visited);
      WalkReachable(graph, cb, e.sink, handed);
      WalkEdgesReachable(graph, cb, node, i + 1, walked);
      assert IsSuccessor(graph, node, e.sink);
      forall n | n in walked.visited - st.visited
        ensures Reachable(graph, node, n)
      {
        ReachableThrough(graph, node, e.sink, n);
      }
    }
  }

  // Closure: every successor of a newly visited node ends up visited.

  /** Every successor of a node a walk newly visits is visited by its end. */
  lemma {:induction false} WalkClosed(graph: Graph, cb: Callbacks, node: nat, st: Walked)
    requires Closed(graph) && node in graph && st.visited <= graph.Keys
    ensures var r := Walk(graph, cb, node, st);
      forall n, e :: n in r.visited - st.visited && e in graph[n] ==> e.sink in r.visited
    decreases |graph.Keys - st.visited|, 0, 0
  {
    if node !in st.visited {
      var entered := Walked(st.visited + {node}, st.nodes + (if cb.onNode then [node] else []), st.edges);
      FewerUnvisited(graph.Keys, st.visited, entered.visited, node);
      WalkEdgesClosed(graph, cb, node, 0, entered);
    }
  }

  /** Walking `node`'s out-edges from the `i`th visits each of their sinks,
    * and every successor of a node it newly visits. */
  lemma {:induction false} WalkEdgesClosed(graph: Graph, cb: Callbacks, node: nat, i: nat, st: Walked)
    requires Closed(graph) && node in graph && st.visited <= graph.Keys && i <= |graph[node]|
    ensures var r := WalkEdges(graph, cb, node, i, st);
      (forall j :: i <= j < |graph[node]| ==> graph[node][j].sink in r.visited) &&
      (forall n, e :: n in r.visited - st.visited && e in graph[n] ==> e.sink in r.visited)
    decreases |graph.Keys - st.visited|, 1, |graph[node]| - i
  {
    if i < |graph[node]| {
      var e := graph[node][i];
      var handed := Walked(st.visited, st.nodes, st.edges + (if cb.onEdge then [e] else []));
      var walked := Walk(graph, cb, e.sink, handed);
      SubsetSize(graph.Keys - walked.visited, graph.Keys - st.visited);
      WalkClosed(graph, cb, e.sink, handed);
      WalkEdgesClosed(graph, cb, node, i + 1, walked);
    }
  }

  // The node callback: each newly visited node once, parents first.

  /** What the node callback was handed between `before` and `after` are
    * the nodes newly visited between them, each once. */
  ghost predicate HandsNewNodes(before: Walked, after: Walked)
    requires |before.nodes| <= |after.nodes|
  {
    Distinct(after.nodes[|before.nodes|..]) &&
    forall n :: n in after.nodes[|before.nodes|..] <==> n in after.visited - before.visited
  }

  /** Two steps that each hand their new nodes over hand the new nodes of
    * both over. */
  lemma HandsNewNodesCompose(a: Walked, b: Walked, c: Walked)
    requires a.visited <= b.visited <= c.visited
    requires |a.nodes| <= |b.nodes| <= |c.nodes| && c.nodes[..|b.nodes|] == b.nodes
    requires HandsNewNodes(a, b) && HandsNewNodes(b, c)
    ensures HandsNewNodes(a, c)
  {
    var first := b.nodes[|a.nodes|..];
    var second := c.nodes[|b.nodes|..];
    assert c.nodes[|a.nodes|..] == first + second;
    forall j, k | 0 <= j < k < |first + second|
      ensures (first + second)[j] != (first + second)[k]
    {
      if j < |first| && k >= |first| {
        assert (first + second)[j] in first;
        assert (first + second)[k] in second;
      }
    }
  }

  /** With the node callback, a walk hands it each node it newly visits, once. */
  lemma {:induction false} WalkHandsNewNodes(graph: Graph, cb: Callbacks, node: nat, st: Walked)
    requires Closed(graph) && node in graph && st.visited <= graph.Keys && cb.onNode
    ensures HandsNewNodes(st, Walk(graph, cb, node, st))
    decreases |graph.Keys - st.visited|, 0, 0
  {
    if node !in st.visited {
      var entered := Walked(st.visited + {node}, st.nodes + [node], st.edges);
      FewerUnvisited(graph.Keys, st.visited, entered.visited, node);
      WalkEdgesHandNewNodes(graph, cb, node, 0, entered);
      assert entered.nodes[|st.nodes|..] == [node];
      HandsNewNodesCompose(st, entered, Walk(graph, cb, node, st));
    } else {
      assert st.nodes[|st.nodes|..] == [];
    }
  }

  /** With the node callback, walking `node`'s out-edges hands it each node
    * newly visited, once. */
  lemma {:induction false} WalkEdgesHandNewNodes(graph: Graph, cb: Callbacks, node: nat, i: nat, st: Walked)
    requires Closed(graph) && node in graph && st.visited <= graph.Keys && i <= |graph[node]| && cb.onNode
    ensures HandsNewNodes(st, WalkEdges(graph, cb, node, i, st))
    decreases |graph.Keys - st.visited|, 1, |graph[node]| - i
  {
    if i < |graph[node]| {
      var e := graph[node][i];
      var handed := Walked(st.visited, st.nodes, st.edges + (if cb.onEdge then [e] else []));
      var walked := Walk(graph, cb, e.sink, handed);
      SubsetSize(graph.Keys - walked.visited, graph.Keys - st.visited);
      WalkHandsNewNodes(graph, cb, e.sink, handed);
      WalkEdgesHandNewNodes(graph, cb, node, i + 1, walked);
      HandsNewNodesCompose(st, walked, WalkEdges(graph, cb, node, i, st));
    } else {
      assert st.nodes[|st.nodes|..] == [];
    }
  }

  /** With the node callback, every node a walk hands over after its start
    * is entered by an edge from a node handed over before it. */
  lemma {:induction false} WalkParentsFirst(graph: Graph, cb: Callbacks, node: nat, st: Walked)
    requires Closed(graph) && node in graph && st.visited <= graph.Keys && cb.onNode
    ensures ParentsFirst(graph, Walk(graph, cb, node, st).nodes, |st.nodes|)
    decreases |graph.Keys - st.visited|, 0, 0
  {
    if node !in st.visited {
      var entered := Walked(st.visited + {node}, st.nodes + [node], st.edges);
      FewerUnvisited(graph.Keys, st.visited, entered.visited, node);
      WalkEdgesParentsFirst(graph, cb, node, 0, entered, |st.nodes|);
    }
  }

  /** With the node callback, when `node` was handed over at position `p`,
    * walking its out-edges keeps every node after `p` entered by an edge
    * from an earlier one at or after `p`. */
  lemma {:induction false} WalkEdgesParentsFirst(graph: Graph, cb: Callbacks, node: nat, i: nat, st: Walked, p: nat)
    requires Closed(graph) && node in graph && st.visited <= graph.Keys && i <= |graph[node]| && cb.onNode
    requires p < |st.nodes| && st.nodes[p] == node && ParentsFirst(graph, st.nodes, p)
    ensures ParentsFirst(graph, WalkEdges(graph, cb, node, i, st).nodes, p)
    decreases |graph.Keys - st.visited|, 1, |graph[node]| - i
  {
    if i < |graph[node]| {
      var e := graph[node][i];
      var handed := Walked(st.visited, st.nodes, st.edges + (if cb.onEdge then [e] else []));
      var walked := Walk(graph, cb, e.sink, handed);
      SubsetSize(graph.Keys - walked.visited, graph.Keys - st.visited);
      WalkParentsFirst(graph, cb, e.sink, handed);
      if |walked.nodes| > |st.nodes| {
        assert walked.nodes[p] == node && walked.nodes[|st.nodes|] == e.sink;
        assert IsSuccessor(graph, walked.nodes[p], walked.nodes[|st.nodes|]);
        assert HasParentBefore(graph, walked.nodes, p, |st.nodes|);
      }
      ParentsFirstExtend(graph, st.nodes, walked.nodes, p);
      assert walked.nodes[p] == node;
      WalkEdgesParentsFirst(graph, cb, node, i + 1, walked, p);
    }
  }

  // The edge callback: the out-edges of the newly visited nodes.

  /** Every edge the edge callback was handed between `before` and `after`
    * is an out-edge of a node of `sources`. */
  ghost predicate HandsOnlyOutEdgesOf(graph: Graph, before: Walked, after: Walked, sources: set<nat>)
    requires |before.edges| <= |after.edges|
  {
    forall k :: |before.edges| <= k < |after.edges| ==>
      after.edges[k].source in sources && after.edges[k].source in graph &&
      after.edges[k] in graph[after.edges[k].source]
  }

  /** Every out-edge of a node newly visited between `before` and `after`
    * was handed to the edge callback between them. */
  ghost predicate HandsAllNewOutEdges(graph: Graph, before: Walked, after: Walked)
    requires |before.edges| <= |after.edges|
  {
    forall n, e :: n in after.visited - before.visited && n in graph && e in graph[n] ==>
      e in after.edges[|before.edges|..]
  }

  /** What was handed over since `from` is still there after more is handed. */
  lemma StaysHanded(before: seq<Edge>, after: seq<Edge>, from: nat, x: Edge)
    requires from <= |before| <= |after| && after[..|before|] == before
    requires x in before[from..]
    ensures x in after[from..]
  {
    var k :| 0 <= k < |before| - from && before[from..][k] == x;
    assert after[from..][k] == x;
  }

  /** What is handed over after `before` was handed over since `from`. */
  lemma NewlyHanded(before: seq<Edge>, after: seq<Edge>, from: nat, x: Edge)
    requires from <= |before| <= |after|
    requires x in after[|before|..]
    ensures x in after[from..]
  {
    var k :| 0 <= k < |after| - |before| && after[|before|..][k] == x;
    assert after[from..][k + |before| - from] == x;
  }

  /** With the edge callback, a walk hands it only out-edges of the nodes
    * it newly visits. */
  lemma {:induction false} WalkHandsOnlyOutEdges(graph: Graph, cb: Callbacks, node: nat, st: Walked)
    requires Closed(graph) && node in graph && st.visited <= graph.Keys
    ensures var r := Walk(graph, cb, node, st);
      HandsOnlyOutEdgesOf(graph, st, r, r.visited - st.visited)
    decreases |graph.Keys - st.visited|, 0, 0
  {
    if node !in st.visited {
      var entered := Walked(st.visited + {node}, st.nodes + (if cb.onNode then [node] else []), st.edges);
      FewerUnvisited(graph.Keys, st.visited, entered.visited, node);
      WalkEdgesHandOnlyOutEdges(graph, cb, node, 0, entered);
      var r := WalkEdges(graph, cb, node, 0, entered);
      assert r.visited - entered.visited + {node} == r.visited - st.visited;
    }
  }

  /** Walking `node`'s out-edges hands the edge callback only out-edges of
    * `node` and of the nodes newly visited. */
  lemma {:induction false} WalkEdgesHandOnlyOutEdges(graph: Graph, cb: Callbacks, node: nat, i: nat, st: Walked)
    requires Closed(graph) && node in graph && st.visited <= graph.Keys && i <= |graph[node]|
    ensures var r := WalkEdges(graph, cb, node, i, st);
      HandsOnlyOutEdgesOf(graph, st, r, r.visited - st.visited + {node})
    decreases |graph.Keys - st.visited|, 1, |graph[node]| - i
  {
    if i < |graph[node]| {
      var e := graph[node][i];
      var handed := Walked(st.visited, st.nodes, st.edges + (if cb.onEdge then [e] else []));
      var walked := Walk(graph, cb, e.sink, handed);
      SubsetSize(graph.Keys - walked.visited, graph.Keys - st.visited);
      WalkHandsOnlyOutEdges(graph, cb, e.sink, handed);
      WalkEdgesHandOnlyOutEdges(graph, cb, node, i + 1, walked);
      var r := WalkEdges(graph, cb, node, i, st);
      forall k | |st.edges| <= k < |r.edges|
        ensures r.edges[k].source in r.visited - st.visited + {node}
        ensures r.edges[k].source in graph && r.edges[k] in graph[r.edges[k].source]
      {
        if k < |handed.edges| {
          assert r.edges[k] == handed.edges[k] == e;
        } else if k < |walked.edges| {
          assert r.edges[k] == walked.edges[k];
        }
      }
    }
  }

  /** With the edge callback, a walk hands it every out-edge of every node
    * it newly visits. */
  lemma {:induction false} WalkHandsAllOutEdges(graph: Graph, cb: Callbacks, node: nat, st: Walked)
    requires Closed(graph) && node in graph && st.visited <= graph.Keys && cb.onEdge
    ensures HandsAllNewOutEdges(graph, st, Walk(graph, cb, node, st))
    decreases |graph.Keys - st.visited|, 0, 0
  {
    if node !in st.visited {
      var entered := Walked(st.visited + {node}, st.nodes + (if cb.onNode then [node] else []), st.edges);
      FewerUnvisited(graph.Keys, st.visited, entered.visited, node);
      WalkEdgesHandAllOutEdges(graph, cb, node, 0, entered);
      var r := Walk(graph, cb, node, st);
      forall e | e in graph[node]
        ensures e in r.edges[|st.edges|..]
      {
        var j :| 0 <= j < |graph[node]| && graph[node][j] == e;
      }
    }
  }

  /** With the edge callback, walking `node`'s out-edges from the `i`th
    * hands it each of them and every out-edge of the nodes newly visited. */
  lemma {:induction false} WalkEdgesHandAllOutEdges(graph: Graph, cb: Callbacks, node: nat, i: nat, st: Walked)
    requires Closed(graph) && node in graph && st.visited <= graph.Keys && i <= |graph[node]| && cb.onEdge
    ensures var r := WalkEdges(graph, cb, node, i, st);
      HandsAllNewOutEdges(graph, st, r) &&
      forall j :: i <= j < |graph[node]| ==> graph[node][j] in r.edges[|st.edges|..]
    decreases |graph.Keys - st.visited|, 1, |graph[node]| - i
  {
    if i < |graph[node]| {
      var e := graph[node][i];
      var handed := Walked(st.visited, st.nodes, st.edges + [e]);
      var walked := Walk(graph, cb, e.sink, handed);
      SubsetSize(graph.Keys - walked.visited, graph.Keys - st.visited);
      WalkHandsAllOutEdges(graph, cb, e.sink, handed);
      WalkEdgesHandAllOutEdges(graph, cb, node, i + 1, walked);
      var r := WalkEdges(graph, cb, node, i, st);
      forall n, x | n in r.visited - st.visited && n in graph && x in graph[n]
        ensures x in r.edges[|st.edges|..]
      {
        if n in walked.visited {
          NewlyHanded(handed.edges, walked.edges, |st.edges|, x);
          StaysHanded(walked.edges, r.edges, |st.edges|, x);
        } else {
          NewlyHanded(walked.edges, r.edges, |st.edges|, x);
        }
      }
      forall j | i <= j < |graph[node]|
        ensures graph[node][j] in r.edges[|st.edges|..]
      {
        if j == i {
          assert handed.edges[|st.edges|..] == [e];
          StaysHanded(handed.edges, walked.edges, |st.edges|, e);
          StaysHanded(walked.edges, r.edges, |st.edges|, e);
        } else {
          NewlyHanded(walked.edges, r.edges, |st.edges|, graph[node][j]);
        }
      }
    }
  }

  // Edge count: with the edge callback, a walk hands over each out-edge of
  // each node it newly visits exactly as often as the node lists it.

  /** The out-edges of the nodes of `s`, counted with multiplicity. */
  ghost function OutEdgesOf(graph: Graph, s: set<nat>): multiset<Edge>
    requires s <= graph.Keys
    decreases s
  {
    if s == {} then multiset{}
    else
      var n :| n in s;
      multiset(graph[n]) + OutEdgesOf(graph, s - {n})
  }

  /** Any node of `s` can be taken out of the sum first. */
  lemma {:induction false} OutEdgesOfRemove(graph: Graph, s: set<nat>, n: nat)
    requires s <= graph.Keys && n in s
    ensures OutEdgesOf(graph, s) == multiset(graph[n]) + OutEdgesOf(graph, s - {n})
    decreases s
  {
    var m :| m in s && OutEdgesOf(graph, s) == multiset(graph[m]) + OutEdgesOf(graph, s - {m});
    if m != n {
      OutEdgesOfRemove(graph, s - {m}, n);
      OutEdgesOfRemove(graph, s - {n}, m);
      assert s - {m} - {n} == s - {n} - {m};
    }
  }

  /** The sum over two disjoint sets is the sum of the two sums. */
  lemma {:induction false} OutEdgesOfUnion(graph: Graph, a: set<nat>, b: set<nat>)
    requires a <= graph.Keys && b <= graph.Keys && a !! b
    ensures OutEdgesOf(graph, a + b) == OutEdgesOf(graph, a) + OutEdgesOf(graph, b)
    decreases a
  {
    if a == {} {
      assert a + b == b;
    } else {
      var n :| n in a;
      OutEdgesOfRemove(graph, a + b, n);
      OutEdgesOfRemove(graph, a, n);
      assert (a + b) - {n} == (a - {n}) + b;
      OutEdgesOfUnion(graph, a - {n}, b);
    }
  }


  /** Entering a node adds its out-edges to the count of what the walk
    * over them hands over. */
  lemma EdgeCountEnter(graph: Graph, node: nat, before: set<nat>, after: set<nat>, handed: multiset<Edge>)
    requires node in graph.Keys && node !in before && before + {node} <= after <= graph.Keys
    requires handed == multiset(graph[node]) + OutEdgesOf(graph, after - (before + {node}))
    ensures handed == OutEdgesOf(graph, after - before)
  {
    assert after - before == {node} + (after - (before + {node}));
    OutEdgesOfUnion(graph, {node}, after - (before + {node}));
    OutEdgesOfRemove(graph, {node}, node);
    assert {node} - {node} == {};
  }

  /** Following one edge `e` and then the later ones hands over `e`, the
    * later ones, and the out-edges of every node newly visited on the way. */
  lemma EdgeCountStep(graph: Graph, st: Walked, walked: Walked, r: Walked, e: Edge, later: seq<Edge>)
    requires st.visited <= walked.visited <= r.visited <= graph.Keys
    requires |st.edges| + 1 <= |walked.edges| <= |r.edges|
    requires walked.edges[..|st.edges| + 1] == st.edges + [e] && r.edges[..|walked.edges|] == walked.edges
    requires multiset(walked.edges[|st.edges| + 1..]) == OutEdgesOf(graph, walked.visited - st.visited)
    requires multiset(r.edges[|walked.edges|..]) == multiset(later) + OutEdgesOf(graph, r.visited - walked.visited)
    ensures multiset(r.edges[|st.edges|..]) == multiset([e] + later) + OutEdgesOf(graph, r.visited - st.visited)
  {
    EdgesAfterStep(st.edges, walked.edges, r.edges, e);
    assert multiset([e] + later) == multiset{e} + multiset(later);
    assert r.visited - st.visited == (walked.visited - st.visited) + (r.visited - walked.visited);
    OutEdgesOfUnion(graph, walked.visited - st.visited, r.visited - walked.visited);
  }

  /** A non-empty suffix is its first element and the rest. */
  lemma SliceCons<T>(s: seq<T>, i: nat)
    requires i < |s|
    ensures s[i..] == [s[i]] + s[i + 1..]
  {
  }

  /** The edges appended to `s0` up to `s2` are `e`, then those appended up
    * to `s1`, then those appended from `s1` on. */
  lemma EdgesAfterStep(s0: seq<Edge>, s1: seq<Edge>, s2: seq<Edge>, e: Edge)
    requires |s0| + 1 <= |s1| <= |s2|
    requires s1[..|s0| + 1] == s0 + [e] && s2[..|s1|] == s1
    ensures multiset(s2[|s0|..]) == multiset{e} + multiset(s1[|s0| + 1..]) + multiset(s2[|s1|..])
  {
    assert s2[|s0|..] == s2[|s0|..|s1|] + s2[|s1|..];
    assert s2[|s0|..|s1|] == s1[|s0|..];
    assert s1[|s0|..] == [e] + s1[|s0| + 1..];
  }

  /** With the edge callback, the edges a walk hands over are, counted with
    * multiplicity, the out-edges of the nodes it newly visits. */
  lemma {:induction false} WalkEdgeCount(graph: Graph, cb: Callbacks, node: nat, st: Walked)
    requires Closed(graph) && node in graph && st.visited <= graph.Keys && cb.onEdge
    ensures var r := Walk(graph, cb, node, st);
      multiset(r.edges[|st.edges|..]) == OutEdgesOf(graph, r.visited - st.visited)
    decreases |graph.Keys - st.visited|, 0, 0
  {
    var r := Walk(graph, cb, node, st);
    if node in st.visited {
      assert r.visited - st.visited == {};
      assert r.edges[|st.edges|..] == [];
    } else {
      var entered := Walked(st.visited + {node}, st.nodes + (if cb.onNode then [node] else []), st.edges);
      FewerUnvisited(graph.Keys, st.visited, entered.visited, node);
      WalkEdgesEdgeCount(graph, cb, node, 0, entered);
      assert graph[node][0..] == graph[node];
      EdgeCountEnter(graph, node, st.visited, r.visited, multiset(r.edges[|st.edges|..]));
    }
  }

  /** With the edge callback, walking `node`'s out-edges from the `i`th
    * hands over those edges and the out-edges of the nodes newly visited,
    * counted with multiplicity. */
  lemma {:induction false} WalkEdgesEdgeCount(graph: Graph, cb: Callbacks, node: nat, i: nat, st: Walked)
    requires Closed(graph) && node in graph && st.visited <= graph.Keys && i <= |graph[node]| && cb.onEdge
    ensures var r := WalkEdges(graph, cb, node, i, st);
      multiset(r.edges[|st.edges|..]) ==
        multiset(graph[node][i..]) + OutEdgesOf(graph, r.visited - st.visited)
    decreases |graph.Keys - st.visited|, 1, |graph[node]| - i
  {
    var r := WalkEdges(graph, cb, node, i, st);
    if i == |graph[node]| {
      assert r.visited - st.visited == {};
      assert r.edges[|st.edges|..] == [];
    } else {
      var e := graph[node][i];
      var handed := Walked(st.visited, st.nodes, st.edges + [e]);
      var walked := Walk(graph, cb, e.sink, handed);
      SubsetSize(graph.Keys - walked.visited, graph.Keys - st.visited);
      WalkEdgeCount(graph, cb, e.sink, handed);
      WalkEdgesEdgeCount(graph, cb, node, i + 1, walked);
      assert r == WalkEdges(graph, cb, node, i + 1, walked);
      assert |handed.edges| == |st.edges| + 1;
      SliceCons(graph[node], i);
      EdgeCountStep(graph, st, walked, r, e, graph[node][i + 1..]);
    }
  }

  /** A walk from an unvisited node marks it, hands it to the node
    * callback, and walks its out-edges. */
  lemma WalkEntersNode(graph: Graph, cb: Callbacks, node: nat, st: Walked)
    requires Closed(graph) && node in graph && st.visited <= graph.Keys && node !in st.visited
    ensures Walk(graph, cb, node, st)
      == WalkEdges(graph, cb, node, 0, Walked(st.visited + {node}, st.nodes + (if cb.onNode then [node] else []), st.edges))
  {
  }

  /** Walking the out-edges from the `i`th hands it to the edge callback,
    * walks from its sink, and goes on with the next. */
  lemma WalkFollowsEdge(graph: Graph, cb: Callbacks, node: nat, i: nat, st: Walked, handed: Walked, walked: Walked)
    requires Closed(graph) && node in graph && st.visited <= graph.Keys && i < |graph[node]|
    requires handed == Walked(st.visited, st.nodes, st.edges + (if cb.onEdge then [graph[node][i]] else []))
    requires walked == Walk(graph, cb, graph[node][i].sink, handed)
    ensures WalkEdges(graph, cb, node, i, st) == WalkEdges(graph, cb, node, i + 1, walked)
  {
  }

  /** The walk's state: the visited set, which the driver clears before
    * each CFG, and what the node and edge callbacks have been handed. */
  class Traversal {
    const graph: Graph
    var visited: set<nat>
    var nodeTrace: seq<nat>
    var edgeTrace: seq<Edge>

    /** The visited nodes are nodes of the graph. */
    ghost predicate Valid()
      reads this
    {
      Closed(graph) && visited <= graph.Keys
    }

    /** The walk's state as a value. */
    function State(): Walked
      reads this
    {
      Walked(visited, nodeTrace, edgeTrace)
    }

    constructor (graph: Graph)
      requires Closed(graph)
      ensures Valid() && this.graph == graph
      ensures visited == {} && nodeTrace == [] && edgeTrace == []
    {
      this.graph := graph;
      visited := {};
      nodeTrace := [];
      edgeTrace := [];
    }

    /** Forgets the visited nodes, as before walking another CFG. */
    method ClearVisited()
      requires Valid()
      modifies this`visited
      ensures Valid() && visited == {}
    {
      visited := {};
    }

    /** Walks from `node` unless it was visited: marks it, hands it to the
      * node callback, then hands each out-edge to the edge callback and
      * walks from its sink. */
    method DFS(node: nat, cb: Callbacks)
      requires Valid() && node in graph
      modifies this`visited, this`nodeTrace, this`edgeTrace
      ensures Valid()
      ensures State() == Walk(graph, cb, node, old(State()))
      decreases |graph.Keys - visited|, 0
    {
      if node in visited {
        return;
      }
      ghost var start := State();
      visited := visited + {node};
      if cb.onNode {
        nodeTrace := nodeTrace + [node];
      }
      WalkEntersNode(graph, cb, node, start);
      FewerUnvisited(graph.Keys, start.visited, visited, node);
      ghost var goal := Walk(graph, cb, node, start);
      var edges := graph[node];
      var i := 0;
      while i < |edges|
        invariant 0 <= i <= |edges|
        invariant Valid() && start.visited + {node} <= visited
        invariant goal == WalkEdges(graph, cb, node, i, State())
      {
        FewerUnvisited(graph.Keys, start.visited, visited, node);
        FollowEdge(node, i, cb);
        i := i + 1;
      }
    }

    /** One turn of the loop over `node`'s out-edges: hand the `i`th to the
      * edge callback and walk from its sink. */
    method FollowEdge(node: nat, i: nat, cb: Callbacks)
      requires Valid() && node in graph && i < |graph[node]|
      modifies this`visited, this`nodeTrace, this`edgeTrace
      ensures Valid() && old(visited) <= visited
      ensures WalkEdges(graph, cb, node, i, old(State())) == WalkEdges(graph, cb, node, i + 1, State())
      decreases |graph.Keys - visited|, 1
    {
      ghost var before := State();
      var e := graph[node][i];
      if cb.onEdge {
        edgeTrace := edgeTrace + [e];
      }
      ghost var handed := State();
      DFS(e.sink, cb);
      WalkFollowsEdge(graph, cb, node, i, before, handed, State());
    }
  }

  /** Lists the blocks of a CFG from its entry as the driver prints them:
    * with a fresh visited set, a walk whose node callback records each node.
    * The list starts at the entry, holds exactly the reachable nodes, each
    * once, and every later node is entered from an earlier one. */
  method PreOrder(graph: Graph, entry: nat) returns (nodes: seq<nat>)
    requires Closed(graph) && entry in graph
    ensures |nodes| > 0 && nodes[0] == entry
    ensures Distinct(nodes)
    ensures forall n :: n in nodes <==> Reachable(graph, entry, n)
    ensures ParentsFirst(graph, nodes, 0)
  {
    var walk := new Traversal(graph);
    var cb := Callbacks(true, false);
    walk.ClearVisited();
    walk.DFS(entry, cb);
    nodes := walk.nodeTrace;
    var st := Walked({}, [], []);
    WalkHandsNewNodes(graph, cb, entry, st);
    WalkReachable(graph, cb, entry, st);
    WalkClosed(graph, cb, entry, st);
    WalkParentsFirst(graph, cb, entry, st);
    assert nodes[0..] == nodes;
    forall n | Reachable(graph, entry, n)
      ensures n in nodes
    {
      ClosedSetHoldsReachable(graph, walk.visited, entry, n);
    }
  }
}
