/** Dependency cycles among tasks: the depth-first search against the existence of a cycle. */
module TaskGraph {
  datatype Task = Task(id: string, blockedBy: seq<string>)

  type Index = map<string, seq<string>>

  /** The index by id: of two tasks with one id, the later counts. */
  function IndexOf(tasks: seq<Task>): Index {
    if tasks == [] then map[]
    else IndexOf(tasks[..|tasks| - 1])[tasks[|tasks| - 1].id := tasks[|tasks| - 1].blockedBy]
  }

  /** `u` is blocked by `v`. Ids outside the index have no dependencies. */
  predicate Edge(g: Index, u: string, v: string) {
    u in g && v in g[u]
  }

  ghost predicate Path(g: Index, p: seq<string>) {
    forall i :: 0 <= i < |p| - 1 ==> Edge(g, p[i], p[i + 1])
  }

  /** A path with at least one edge that ends where it starts. */
  ghost predicate Cycle(g: Index, p: seq<string>) {
    |p| >= 2 && Path(g, p) && p[0] == p[|p| - 1]
  }

  ghost predicate Cyclic(g: Index) {
    exists p :: Cycle(g, p)
  }

  /** Finished ids: closed under dependency, and no cycle runs through them. */
  ghost predicate Finished(g: Index, done: set<string>) {
    && (forall u, v :: u in done && Edge(g, u, v) ==> v in done)
    && (forall p :: Cycle(g, p) ==> p[0] !in done)
  }

  lemma {:induction false} PathStaysIn(g: Index, done: set<string>, p: seq<string>, i: nat)
    requires Path(g, p) && i < |p| && p[0] in done
    requires forall u, v :: u in done && Edge(g, u, v) ==> v in done
    ensures p[i] in done
  {
    if i > 0 {
      PathStaysIn(g, done, p, i - 1);
      assert Edge(g, p[i - 1], p[i]);
    }
  }

  /** An id all of whose dependencies are finished is finished. */
  lemma FinishOne(g: Index, done: set<string>, u: string)
    requires Finished(g, done) && u !in done
    requires forall v :: Edge(g, u, v) ==> v in done
    ensures Finished(g, done + {u})
  {
    forall p | Cycle(g, p) ensures p[0] !in done + {u} {
      if p[0] == u {
        assert Edge(g, p[0], p[1]);
        assert Path(g, p[1..]);
        PathStaysIn(g, done, p[1..], |p| - 2);
        assert false;
      }
    }
  }

  /** The stack as a path: meeting an id on it closes a cycle. */
  lemma StackCloses(g: Index, path: seq<string>, k: nat, u: string)
    requires Path(g, path + [u]) && k < |path| && path[k] == u
    ensures Cyclic(g)
  {
    var p := path[k..] + [u];
    forall i | 0 <= i < |p| - 1 ensures Edge(g, p[i], p[i + 1]) {
      assert p[i] == (path + [u])[k + i] && p[i + 1] == (path + [u])[k + i + 1];
    }
    assert Cycle(g, p);
  }

  function Elements(s: seq<string>): set<string> {
    set x | x in s
  }

  function Deps(g: Index): set<string> {
    set u, v | u in g && v in g[u] :: v
  }

  class CycleSearch {
    const index: Index
    var visited: set<string>
    var stack: set<string>

    constructor (index: Index)
      ensures this.index == index && visited == {} && stack == {}
    {
      this.index := index;
      visited, stack := {}, {};
    }

    /** The search is under way along `path`: the stack is the path, everything visited and off it is finished. */
    ghost predicate Searching(path: seq<string>)
      reads this
    {
      && Path(index, path)
      && stack == Elements(path)
      && stack <= visited
      && Finished(index, visited - stack)
    }

    /** One call of the nested search function. It recurses only after adding an unvisited id,
        so the ids not yet visited, of which there are finitely many, strictly decrease. */
    method Dfs(id: string, ghost path: seq<string>, ghost all: set<string>) returns (found: bool)
      requires Searching(path) && Path(index, path + [id])
      requires id in all && Deps(index) <= all
      modifies this
      ensures found ==> Cyclic(index)
      ensures !found ==> Searching(path) && stack == old(stack) && old(visited) + {id} <= visited && id !in stack
      decreases all - visited
    {
      if id in stack {
        ghost var k :| 0 <= k < |path| && path[k] == id;
        StackCloses(index, path, k, id);
        return true;
      }
      if id in visited {
        return false;
      }
      visited := visited + {id};
      stack := stack + {id};
      ghost var longer := path + [id];
      assert stack == Elements(longer);
      assert visited - stack == old(visited) - old(stack);
      if id in index {
        var dependencies := index[id];
        for i := 0 to |dependencies|
          invariant Searching(longer) && stack == old(stack) + {id} && old(visited) + {id} <= visited
          invariant forall k :: 0 <= k < i ==> dependencies[k] in visited && dependencies[k] !in stack
        {
          assert Edge(index, id, dependencies[i]);
          assert Path(index, longer + [dependencies[i]]);
          found := Dfs(dependencies[i], longer, all);
          if found {
            return true;
          }
        }
      }
      forall v | Edge(index, id, v) ensures v in visited - stack {
      }
      FinishOne(index, visited - stack, id);
      stack := stack - {id};
      assert stack == old(stack);
      assert visited - stack == (visited - (stack + {id})) + {id};
      return false;
    }
  }

  /** True exactly when the graph over the given tasks has a cycle. */
  method DetectCycle(tasks: seq<Task>) returns (found: bool)
    ensures found <==> Cyclic(IndexOf(tasks))
  {
    var search := new CycleSearch(IndexOf(tasks));
    ghost var all := Elements(seq(|tasks|, i requires 0 <= i < |tasks| => tasks[i].id)) + Deps(search.index);
    for i := 0 to |tasks|
      invariant search.Searching([]) && fresh(search) && search.index == IndexOf(tasks)
      invariant forall k :: 0 <= k < i ==> tasks[k].id in search.visited
    {
      assert tasks[i].id in seq(|tasks|, i requires 0 <= i < |tasks| => tasks[i].id) by {
        assert seq(|tasks|, i requires 0 <= i < |tasks| => tasks[i].id)[i] == tasks[i].id;
      }
      found := search.Dfs(tasks[i].id, [], all);
      if found {
        return true;
      }
    }
    forall p ensures !Cycle(search.index, p) {
      if Cycle(search.index, p) {
        assert Edge(search.index, p[0], p[1]);
        IndexKeys(tasks, p[0]);
      }
    }
    return false;
  }

  lemma {:induction false} IndexKeys(tasks: seq<Task>, id: string)
    ensures id in IndexOf(tasks) <==> exists i :: 0 <= i < |tasks| && tasks[i].id == id
  {
    if tasks != [] {
      var n := |tasks| - 1;
      IndexKeys(tasks[..n], id);
      if i :| 0 <= i < |tasks| && tasks[i].id == id {
        assert i < n ==> tasks[..n][i].id == id;
      }
      if id in IndexOf(tasks[..n]) {
        var i :| 0 <= i < n && tasks[..n][i].id == id;
        assert tasks[i].id == id;
      }
    }
  }
}
