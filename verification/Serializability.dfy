/** Conflict serializability of interleaved calls. */
module Serializability {
  // A run is a word over call numbers: each letter is one atomic step of that call, so
  // a word may interleave the steps of several calls in any way.  If every inversion of
  // the word (a step of a later call before a step of an earlier one) is between calls
  // whose footprints do not conflict, the word ends in the same state as running the
  // calls one after the other in model order.

  import opened Footprint

  /** The world and the private state (in-flight work, then result) of every call. */
  datatype System = System(world: World, locals: seq<Local>)

  type Tools = seq<Step>

  function Apply(tools: Tools, call: nat, s: System): System {
    if call < |tools| && call < |s.locals| then
      var (w, l) := tools[call](s.world, s.locals[call]);
      System(w, s.locals[call := l])
    else s
  }

  function Run(tools: Tools, word: seq<nat>, s: System): System {
    if word == [] then s else Apply(tools, word[|word| - 1], Run(tools, word[..|word| - 1], s))
  }

  ghost predicate ToolsRespect(tools: Tools, footprints: seq<Footprint>) {
    |tools| == |footprints| && forall i :: 0 <= i < |tools| ==> Respects(tools[i], footprints[i])
  }

  /** Every inversion is between calls that do not conflict. */
  predicate ConflictOrdered(word: seq<nat>, footprints: seq<Footprint>) {
    forall p, q :: 0 <= p < q < |word| && word[q] < word[p] < |footprints| ==>
      !Conflicts(footprints[word[p]], footprints[word[q]])
  }

  predicate Sorted(word: seq<nat>) {
    forall p, q :: 0 <= p < q < |word| ==> word[p] <= word[q]
  }

  lemma {:induction false} RunConcat(tools: Tools, u: seq<nat>, v: seq<nat>, s: System)
    ensures Run(tools, u + v, s) == Run(tools, v, Run(tools, u, s))
  {
    if v == [] {
      assert u + v == u;
    } else {
      var front := v[..|v| - 1];
      assert (u + v)[..|u + v| - 1] == u + front;
      RunConcat(tools, u, front, s);
    }
  }

  lemma {:induction false} RunKeepsCallCount(tools: Tools, word: seq<nat>, s: System)
    ensures |Run(tools, word, s).locals| == |s.locals|
  {
    if word != [] {
      RunKeepsCallCount(tools, word[..|word| - 1], s);
    }
  }

  lemma StepsCommute(tools: Tools, footprints: seq<Footprint>, a: nat, b: nat, s: System)
    requires ToolsRespect(tools, footprints)
    requires a != b
    requires a < |footprints| && b < |footprints| ==> !Conflicts(footprints[a], footprints[b])
    ensures Apply(tools, a, Apply(tools, b, s)) == Apply(tools, b, Apply(tools, a, s))
  {
    if a < |tools| && b < |tools| && a < |s.locals| && b < |s.locals| {
      NonConflictingStepsCommute(
        tools[a], footprints[a], tools[b], footprints[b], s.world, s.locals[a], s.locals[b]);
      var la, lb := tools[a](s.world, s.locals[a]).1, tools[b](s.world, s.locals[b]).1;
      assert s.locals[a := la][b := lb] == s.locals[b := lb][a := la];
    }
  }

  /** Moves x left past every larger letter of a sorted word. */
  function Insert(sorted: seq<nat>, x: nat): seq<nat> {
    if sorted == [] || sorted[|sorted| - 1] <= x then sorted + [x]
    else Insert(sorted[..|sorted| - 1], x) + [sorted[|sorted| - 1]]
  }

  /** The steps of the word in model order: call by call, each call's steps together. */
  function Serial(word: seq<nat>): seq<nat> {
    if word == [] then [] else Insert(Serial(word[..|word| - 1]), word[|word| - 1])
  }

  lemma {:induction false} InsertKeepsLetters(sorted: seq<nat>, x: nat)
    ensures multiset(Insert(sorted, x)) == multiset(sorted) + multiset{x}
  {
    if sorted == [] || sorted[|sorted| - 1] <= x {
    } else {
      var front, last := sorted[..|sorted| - 1], sorted[|sorted| - 1];
      assert sorted == front + [last];
      InsertKeepsLetters(front, x);
    }
  }

  lemma {:induction false} InsertKeepsSorted(sorted: seq<nat>, x: nat)
    requires Sorted(sorted)
    ensures Sorted(Insert(sorted, x))
  {
    if sorted == [] || sorted[|sorted| - 1] <= x {
    } else {
      var front, last := sorted[..|sorted| - 1], sorted[|sorted| - 1];
      var r := Insert(front, x);
      InsertKeepsSorted(front, x);
      InsertKeepsLetters(front, x);
      forall p | 0 <= p < |r| ensures r[p] <= last {
        assert r[p] in multiset(r);
        assert r[p] == x || r[p] in multiset(front);
      }
    }
  }

  lemma {:induction false} SerialSorts(word: seq<nat>)
    ensures Sorted(Serial(word)) && multiset(Serial(word)) == multiset(word)
  {
    if word != [] {
      var front, x := word[..|word| - 1], word[|word| - 1];
      assert word == front + [x];
      SerialSorts(front);
      InsertKeepsSorted(Serial(front), x);
      InsertKeepsLetters(Serial(front), x);
    }
  }

  lemma {:induction false} InsertPreservesRun(
    tools: Tools, footprints: seq<Footprint>, sorted: seq<nat>, x: nat, s: System)
    requires ToolsRespect(tools, footprints)
    requires forall y :: y in sorted && x < y < |footprints| ==> !Conflicts(footprints[y], footprints[x])
    ensures Run(tools, Insert(sorted, x), s) == Run(tools, sorted + [x], s)
  {
    if sorted == [] || sorted[|sorted| - 1] <= x {
    } else {
      var front, last := sorted[..|sorted| - 1], sorted[|sorted| - 1];
      assert last in sorted;
      InsertPreservesRun(tools, footprints, front, x, s);
      var mid := Run(tools, front, s);
      RunConcat(tools, Insert(front, x), [last], s);
      RunConcat(tools, front, [x], s);
      RunConcat(tools, front, [last], s);
      assert sorted == front + [last];
      RunConcat(tools, sorted, [x], s);
      RunOne(tools, x, mid);
      RunOne(tools, last, mid);
      RunOne(tools, last, Apply(tools, x, mid));
      RunOne(tools, x, Apply(tools, last, mid));
      StepsCommute(tools, footprints, last, x, mid);
    }
  }

  lemma RunOne(tools: Tools, x: nat, s: System)
    ensures Run(tools, [x], s) == Apply(tools, x, s)
  {
    assert [x][..0] == [];
    assert Run(tools, [], s) == s;
  }

  /** Running a conflict-ordered word is running its serial rearrangement. */
  lemma {:induction false} SerialPreservesRun(tools: Tools, footprints: seq<Footprint>, word: seq<nat>, s: System)
    requires ToolsRespect(tools, footprints)
    requires ConflictOrdered(word, footprints)
    ensures Run(tools, Serial(word), s) == Run(tools, word, s)
  {
    if word != [] {
      var front, x := word[..|word| - 1], word[|word| - 1];
      assert word == front + [x];
      SerialPreservesRun(tools, footprints, front, s);
      SerialSorts(front);
      forall y | y in Serial(front) && x < y < |footprints|
        ensures !Conflicts(footprints[y], footprints[x])
      {
        assert y in multiset(Serial(front));
        assert y in multiset(front);
        var p :| 0 <= p < |front| && front[p] == y;
        assert word[p] == y && word[|word| - 1] == x;
      }
      InsertPreservesRun(tools, footprints, Serial(front), x, s);
      RunConcat(tools, Serial(front), [x], s);
      RunConcat(tools, front, [x], s);
    }
  }

  lemma DropLast(u: seq<nat>)
    requires u != []
    ensures multiset(u[..|u| - 1]) == multiset(u) - multiset{u[|u| - 1]}
  {
    assert u == u[..|u| - 1] + [u[|u| - 1]];
  }

  lemma LastIsGreatest(u: seq<nat>, v: seq<nat>)
    requires Sorted(u) && multiset(u) == multiset(v) && v != []
    ensures u != [] && v[|v| - 1] <= u[|u| - 1]
  {
    assert v[|v| - 1] in multiset(v);
    assert v[|v| - 1] in u;
  }

  lemma {:induction false} SortedIsUnique(u: seq<nat>, v: seq<nat>)
    requires Sorted(u) && Sorted(v) && multiset(u) == multiset(v)
    ensures u == v
    decreases |u|
  {
    if u == [] {
      assert |v| == |multiset(v)| == 0;
    } else {
      LastIsGreatest(v, u);
      LastIsGreatest(u, v);
      DropLast(u);
      DropLast(v);
      SortedIsUnique(u[..|u| - 1], v[..|v| - 1]);
      assert u == u[..|u| - 1] + [u[|u| - 1]] && v == v[..|v| - 1] + [v[|v| - 1]];
    }
  }

  /** Main theorem: every conflict-ordered interleaving ends exactly where the serial run of
      the same steps in model order ends, including every call's own result. */
  lemma ConflictSerializable(
    tools: Tools, footprints: seq<Footprint>, word: seq<nat>, serial: seq<nat>, s: System)
    requires ToolsRespect(tools, footprints)
    requires ConflictOrdered(word, footprints)
    requires Sorted(serial) && multiset(serial) == multiset(word)
    ensures Run(tools, word, s) == Run(tools, serial, s)
  {
    SerialPreservesRun(tools, footprints, word, s);
    SerialSorts(word);
    SortedIsUnique(Serial(word), serial);
  }
}
