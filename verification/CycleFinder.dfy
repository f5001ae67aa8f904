/**
 The reference implementation's check for dependency cycles: an iterative
 white/grey/black depth-first search over a dictionary of edges.
 */
module CycleFinder {
  import opened Wrappers
  import opened Walks

  datatype Color = White | Grey | Black

  // A node on the search stack and how many of its children were looked at.
  datatype Frame = Frame(node: string, next: nat)

  type EdgeMap = map<string, seq<string>>

  // The edges between keys of the dictionary; a name that is no key counts as explored.
  ghost function Arcs(edges: EdgeMap): iset<(string, string)> {
    iset a, b | a in edges && b in edges && b in edges[a] :: (a, b)
  }

  // Grey nodes are those on the path, black ones those finished.
  ghost predicate Coloured(edges: EdgeMap, color: map<string, Color>, path: seq<string>, finished: seq<string>) {
    && color.Keys == edges.Keys
    && (forall n :: n in path ==> n in edges)
    && (forall n :: n in finished ==> n in edges)
    && (forall n :: n in edges ==> (color[n] == Grey <==> n in path))
    && (forall n :: n in edges ==> (color[n] == Black <==> n in finished))
    && (forall i, j :: 0 <= i < j < |path| ==> path[i] != path[j])
    && (forall i, j :: 0 <= i < j < |finished| ==> finished[i] != finished[j])
    && IsTopological(Arcs(edges), finished)
  }

  ghost predicate Seen(edges: EdgeMap, color: map<string, Color>, child: string) {
    child in edges ==> child in color && color[child] == Black
  }

  // Children already looked at are black, except the one the path continues with.
  ghost predicate Explored(edges: EdgeMap, color: map<string, Color>, stack: seq<Frame>, path: seq<string>) {
    && |stack| == |path|
    && (forall i :: 0 <= i < |stack| ==>
          && stack[i].node == path[i]
          && path[i] in edges
          && stack[i].next <= |edges[path[i]]|)
    && (forall i, c :: 0 <= i < |stack| && 0 <= c < stack[i].next ==>
          || Seen(edges, color, edges[path[i]][c])
          || (i + 1 < |path| && path[i + 1] == edges[path[i]][c]))
    && (forall i :: 0 <= i < |path| - 1 ==> (path[i], path[i + 1]) in Arcs(edges))
  }

  ghost function Whites(color: map<string, Color>): set<string> {
    set n | n in color && color[n] == White
  }

  // Advance over children that are neither grey nor white.
  method NextChild(edges: EdgeMap, color: map<string, Color>, node: string, from: nat) returns (next: nat)
    requires node in edges && color.Keys == edges.Keys && from <= |edges[node]|
    ensures from <= next <= |edges[node]|
    ensures forall c :: from <= c < next ==> Seen(edges, color, edges[node][c])
    ensures next < |edges[node]| ==>
      edges[node][next] in edges && color[edges[node][next]] != Black
  {
    next := from;
    while next < |edges[node]|
      invariant from <= next <= |edges[node]|
      invariant forall c :: from <= c < next ==> Seen(edges, color, edges[node][c])
    {
      var child := edges[node][next];
      if child in color && color[child] != Black {
        return;
      }
      next := next + 1;
    }
  }

  // Python's `path.index`.
  function IndexIn(path: seq<string>, x: string): (i: nat)
    requires x in path
    ensures i < |path| && path[i] == x
  {
    if path[0] == x then 0 else 1 + IndexIn(path[1..], x)
  }

  // A grey child closes a cycle.
  lemma Close(edges: EdgeMap, path: seq<string>, at: nat)
    requires at < |path|
    requires forall i :: 0 <= i < |path| - 1 ==> (path[i], path[i + 1]) in Arcs(edges)
    requires (path[|path| - 1], path[at]) in Arcs(edges)
    ensures IsCycle(Arcs(edges), path[at..] + [path[at]])
  {
    var p := path[at..] + [path[at]];
    forall i | 0 <= i < |p| - 1 ensures (p[i], p[i + 1]) in Arcs(edges) {
      assert i + at < |path| - 1 ==> (path[i + at], path[i + at + 1]) in Arcs(edges);
    }
  }

  // Both halves of the search's invariant.
  ghost predicate Searching(edges: EdgeMap, color: map<string, Color>, stack: seq<Frame>, path: seq<string>,
                            finished: seq<string>) {
    Coloured(edges, color, path, finished) && Explored(edges, color, stack, path)
  }

  // A white child is pushed.
  lemma Push(edges: EdgeMap, color: map<string, Color>, stack: seq<Frame>, path: seq<string>,
             finished: seq<string>, top: nat, node: string, next: nat, child: string)
    requires Searching(edges, color, stack, path, finished) && |stack| == top + 1 && stack[top].node == node
    requires stack[top].next <= next < |edges[node]| && child == edges[node][next]
    requires forall c :: stack[top].next <= c < next ==> Seen(edges, color, edges[node][c])
    requires child in edges && color[child] == White
    ensures Searching(edges, color[child := Grey], stack[..top] + [Frame(node, next + 1), Frame(child, 0)],
                      path + [child], finished)
    ensures Whites(color[child := Grey]) < Whites(color)
  {
    var color', path' := color[child := Grey], path + [child];
    assert child !in path && child !in finished;
    assert child in Whites(color) && child !in Whites(color');
    assert (path[top], child) in Arcs(edges);
  }

  // A node whose children are all explored is finished.
  lemma Finish(edges: EdgeMap, color: map<string, Color>, path: seq<string>, finished: seq<string>, node: string)
    requires Coloured(edges, color, path, finished) && |path| > 0 && path[|path| - 1] == node
    requires forall c :: 0 <= c < |edges[node]| ==> Seen(edges, color, edges[node][c])
    ensures Coloured(edges, color[node := Black], path[..|path| - 1], finished + [node])
  {
    var finished' := finished + [node];
    assert node !in finished && node !in path[..|path| - 1];
    assert path == path[..|path| - 1] + [node];
    forall a, b | (a, b) in Arcs(edges) && a in finished'
      ensures exists i, j :: 0 <= i < j < |finished'| && finished'[i] == b && finished'[j] == a
    {
      if a in finished {
        var i, j :| 0 <= i < j < |finished| && finished[i] == b && finished[j] == a;
        assert finished'[i] == b && finished'[j] == a;
      } else {
        var c :| 0 <= c < |edges[a]| && edges[a][c] == b;
        assert Seen(edges, color, edges[a][c]);
        assert b in finished;
        var i :| 0 <= i < |finished| && finished[i] == b;
        assert finished'[i] == b && finished'[|finished|] == a;
      }
    }
  }

  lemma Pop(edges: EdgeMap, color: map<string, Color>, stack: seq<Frame>, path: seq<string>, finished: seq<string>)
    requires Coloured(edges, color, path, finished) && Explored(edges, color, stack, path) && |path| > 0
    ensures Explored(edges, color[path[|path| - 1] := Black], stack[..|stack| - 1], path[..|path| - 1])
    ensures Whites(color[path[|path| - 1] := Black]) == Whites(color)
  {
    var node := path[|path| - 1];
    var color' := color[node := Black];
    var path' := path[..|path| - 1];
    assert color[node] == Grey;
    forall i, c | 0 <= i < |path'| && 0 <= c < stack[i].next
      ensures Seen(edges, color', edges[path'[i]][c]) || (i + 1 < |path'| && path'[i + 1] == edges[path'[i]][c])
    {
      assert Seen(edges, color, edges[path[i]][c]) || path[i + 1] == edges[path[i]][c];
    }
  }

  // A top node with no child left to look at is finished and popped.
  lemma Retire(edges: EdgeMap, color: map<string, Color>, stack: seq<Frame>, path: seq<string>, finished: seq<string>,
               top: nat, node: string)
    requires Searching(edges, color, stack, path, finished) && |stack| == top + 1 && stack[top].node == node
    requires forall c :: stack[top].next <= c < |edges[node]| ==> Seen(edges, color, edges[node][c])
    ensures Searching(edges, color[node := Black], stack[..top], path[..top], finished + [node])
    ensures Whites(color[node := Black]) == Whites(color)
  {
    forall c | 0 <= c < |edges[path[top]]| ensures Seen(edges, color, edges[path[top]][c]) {
      assert c < stack[top].next || Seen(edges, color, edges[stack[top].node][c]);
    }
    Finish(edges, color, path, finished, path[top]);
    Pop(edges, color, stack, path, finished);
  }

  lemma Begin(edges: EdgeMap, color: map<string, Color>, start: string, finished: seq<string>)
    requires Coloured(edges, color, [], finished) && start in edges && color[start] == White
    ensures Searching(edges, color[start := Grey], [Frame(start, 0)], [start], finished)
  {
  }

  // Grey names the path, so a grey child occurs on it and closes a cycle.
  lemma GreyChild(edges: EdgeMap, color: map<string, Color>, stack: seq<Frame>, path: seq<string>,
                  finished: seq<string>, child: string)
    requires Searching(edges, color, stack, path, finished) && |path| > 0
    requires child in edges && child in edges[path[|path| - 1]] && color[child] == Grey
    ensures child in path && IsCycle(Arcs(edges), path[IndexIn(path, child)..] + [child])
  {
    Close(edges, path, IndexIn(path, child));
  }

  // The search from one white node: the inner loop of `_find_cycle`.
  method Explore(edges: EdgeMap, color0: map<string, Color>, start: string, ghost finished0: seq<string>)
    returns (cycle: Option<seq<string>>, color: map<string, Color>, ghost finished: seq<string>)
    requires Coloured(edges, color0, [], finished0)
    requires start in edges && color0[start] == White
    ensures cycle.Some? ==> IsCycle(Arcs(edges), cycle.value)
    ensures cycle.None? ==> Coloured(edges, color, [], finished)
    ensures cycle.None? ==> start in finished && finished0 <= finished
  {
    Begin(edges, color0, start, finished0);
    var stack, path := [Frame(start, 0)], [start];
    color, finished, cycle := color0[start := Grey], finished0, None;
    while stack != []
      invariant Searching(edges, color, stack, path, finished)
      invariant start in path || start in finished
      invariant finished0 <= finished
      decreases Whites(color), |stack|
    {
      var top := |stack| - 1;
      var node := stack[top].node;
      var next := NextChild(edges, color, node, stack[top].next);
      if next < |edges[node]| {
        var child := edges[node][next];
        if color[child] == Grey {
          GreyChild(edges, color, stack, path, finished, child);
          return Some(path[IndexIn(path, child)..] + [child]), color, finished;
        }
        Push(edges, color, stack, path, finished, top, node, next, child);
        color := color[child := Grey];
        path := path + [child];
        stack := stack[..top] + [Frame(node, next + 1), Frame(child, 0)];
      } else {
        Retire(edges, color, stack, path, finished, top, node);
        color := color[node := Black];
        finished := finished + [node];
        stack := stack[..top];
        path := path[..top];
      }
    }
    assert path == [];
  }

  // `_find_cycle`: one closed walk along edges, or none and there is no cycle.
  method FindCycle(edges: EdgeMap, keys: seq<string>) returns (cycle: Option<seq<string>>)
    requires forall k :: k in keys <==> k in edges
    ensures cycle.Some? ==> IsCycle(Arcs(edges), cycle.value)
    ensures cycle.None? ==> !HasCycle(Arcs(edges))
  {
    var color := map k | k in edges :: White;
    ghost var finished: seq<string> := [];
    for s := 0 to |keys|
      invariant Coloured(edges, color, [], finished)
      invariant forall k :: 0 <= k < s ==> keys[k] in finished
    {
      if color[keys[s]] == White {
        cycle, color, finished := Explore(edges, color, keys[s], finished);
        if cycle.Some? {
          return;
        }
      }
    }
    AllFinished(edges, finished);
    return None;
  }

  lemma AllFinished(edges: EdgeMap, finished: seq<string>)
    requires IsTopological(Arcs(edges), finished)
    requires forall i, j :: 0 <= i < j < |finished| ==> finished[i] != finished[j]
    requires forall n :: n in edges ==> n in finished
    ensures !HasCycle(Arcs(edges))
  {
    forall p ensures !IsCycle(Arcs(edges), p) {
      if IsCycle(Arcs(edges), p) {
        CycleHasEdge(Arcs(edges), p);
        TopologicalNoCycle(Arcs(edges), finished, p);
      }
    }
  }
}
