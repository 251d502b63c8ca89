/** Resource footprints of tool calls. */
module Footprint {
  // Two calls whose footprints do not conflict may run in either order.
  // A footprint lists the resources a call reads and writes.  The scheduler only ever
  // asks one question about two footprints: do they conflict?  This module gives that
  // question a meaning.  The workspace, the processes and the browser sessions are
  // cells of one world; a tool respects a footprint when it depends only on cells the
  // footprint lets it touch and changes only cells the footprint lets it write.  Two
  // tools that respect footprints without a conflict then commute.

  /** A resource named by an effect.  A workspace path is the list of its components. */
  datatype Resource =
    | WorkspacePath(components: seq<string>)
    | Workspace
    | Process(pid: nat)
    | BrowserSession(session: nat)
    | Global

  datatype Effect =
    | Read(resource: Resource)
    | Write(resource: Resource)
    | Exclusive(resource: Resource)
  {
    predicate Writes() {
      !Read?
    }
  }

  datatype Footprint = Footprint(effects: seq<Effect>, unknown: bool)

  const EMPTY := Footprint([], false)

  predicate Overlap(left: Resource, right: Resource) {
    match (left, right)
    case (Global, _) => true
    case (_, Global) => true
    case (Workspace, _) => true
    case (_, Workspace) => true
    case (Process(a), Process(b)) => a == b
    case (BrowserSession(a), BrowserSession(b)) => a == b
    case (WorkspacePath(a), WorkspacePath(b)) => a <= b || b <= a
    case _ => false
  }

  predicate EffectsConflict(left: Effect, right: Effect) {
    (left.Writes() || right.Writes()) && Overlap(left.resource, right.resource)
  }

  predicate Conflicts(left: Footprint, right: Footprint) {
    || left.unknown
    || right.unknown
    || exists l, r :: l in left.effects && r in right.effects && EffectsConflict(l, r)
  }

  // ----- What a footprint permits -----

  /** One independently addressable piece of state.  Ambient stands for everything
      outside the workspace, the processes and the browser sessions. */
  datatype Cell = File(path: seq<string>) | ProcessCell(pid: nat) | BrowserCell(session: nat) | Ambient

  type Value(!new)
  type Local(!new)

  /** The state shared by all tools; an absent cell is a missing file or a dead process. */
  type World = imap<Cell, Value>

  /** One atomic step of a running call, from the world and the call's private state. */
  type Step = (World, Local) -> (World, Local)

  predicate Covers(r: Resource, c: Cell) {
    match r
    case Global => true
    case Workspace => c.File?
    case WorkspacePath(p) => c.File? && p <= c.path
    case Process(id) => c == ProcessCell(id)
    case BrowserSession(id) => c == BrowserCell(id)
  }

  predicate MayTouch(f: Footprint, c: Cell) {
    f.unknown || exists e :: e in f.effects && Covers(e.resource, c)
  }

  predicate MayWrite(f: Footprint, c: Cell) {
    f.unknown || exists e :: e in f.effects && e.Writes() && Covers(e.resource, c)
  }

  ghost predicate SameAt(u: World, v: World, c: Cell) {
    (c in u <==> c in v) && (c in u && c in v ==> u[c] == v[c])
  }

  ghost predicate AgreeOnTouched(f: Footprint, u: World, v: World) {
    forall c :: MayTouch(f, c) ==> SameAt(u, v, c)
  }

  ghost predicate WritesOnlyPermitted(step: Step, f: Footprint) {
    forall w, l, c :: !MayWrite(f, c) ==> SameAt(step(w, l).0, w, c)
  }

  ghost predicate DependsOnlyOnPermitted(step: Step, f: Footprint) {
    forall u, v, l :: AgreeOnTouched(f, u, v) ==>
      && step(u, l).1 == step(v, l).1
      && forall c :: MayWrite(f, c) ==> SameAt(step(u, l).0, step(v, l).0, c)
  }

  ghost predicate Respects(step: Step, f: Footprint) {
    WritesOnlyPermitted(step, f) && DependsOnlyOnPermitted(step, f)
  }

  lemma ConflictsIsSymmetric(f: Footprint, g: Footprint)
    ensures Conflicts(f, g) <==> Conflicts(g, f)
  {
    forall l, r | l in f.effects && r in g.effects
      ensures EffectsConflict(l, r) <==> EffectsConflict(r, l)
    {}
  }

  /** Without a conflict, no cell that one call may write is a cell the other may touch. */
  lemma NoConflictSeparates(f: Footprint, g: Footprint, c: Cell)
    requires !Conflicts(f, g)
    ensures !(MayWrite(f, c) && MayTouch(g, c))
    ensures !(MayTouch(f, c) && MayWrite(g, c))
  {
    forall l, r | l in f.effects && r in g.effects && Covers(l.resource, c) && Covers(r.resource, c)
      ensures Overlap(l.resource, r.resource)
    {
      if l.resource.WorkspacePath? && r.resource.WorkspacePath? {
        PrefixesAreComparable(l.resource.components, r.resource.components, c.path);
      }
    }
  }

  lemma PrefixesAreComparable(a: seq<string>, b: seq<string>, path: seq<string>)
    requires a <= path && b <= path
    ensures a <= b || b <= a
  {
    assert a == path[..|a|] && b == path[..|b|];
  }

  // ----- When footprints conflict -----

  /** One of the calls may write some piece of state that the other may touch. */
  ghost predicate ShareWritten(f: Footprint, g: Footprint) {
    exists c :: (MayWrite(f, c) && MayTouch(g, c)) || (MayTouch(f, c) && MayWrite(g, c))
  }

  predicate IsOutside(r: Resource) {
    r.Process? || r.BrowserSession?
  }

  /** One of the calls names the whole workspace and the other a process or a browser session, and
      one of the two effects writes. */
  predicate CrossWorkspace(f: Footprint, g: Footprint) {
    exists l, r :: l in f.effects && r in g.effects && (!l.Read? || !r.Read?)
      && ((l.resource.Workspace? && IsOutside(r.resource)) || (IsOutside(l.resource) && r.resource.Workspace?))
  }

  /** A cell that both resources cover. */
  function Meeting(l: Resource, r: Resource): Cell {
    match (l, r)
    case (Process(id), _) => ProcessCell(id)
    case (_, Process(id)) => ProcessCell(id)
    case (BrowserSession(id), _) => BrowserCell(id)
    case (_, BrowserSession(id)) => BrowserCell(id)
    case (WorkspacePath(a), WorkspacePath(b)) => File(if a <= b then b else a)
    case (WorkspacePath(a), _) => File(a)
    case (_, WorkspacePath(b)) => File(b)
    case (Workspace, _) => File([])
    case (_, Workspace) => File([])
    case (Global, Global) => Ambient
  }

  lemma OverlapMeets(l: Resource, r: Resource)
    requires Overlap(l, r)
    ensures (Covers(l, Meeting(l, r)) && Covers(r, Meeting(l, r)))
      || (l.Workspace? && IsOutside(r)) || (IsOutside(l) && r.Workspace?)
  {
  }

  lemma CrossIsOverlap(l: Effect, r: Effect)
    requires !l.Read? || !r.Read?
    requires (l.resource.Workspace? && IsOutside(r.resource)) || (IsOutside(l.resource) && r.resource.Workspace?)
    ensures EffectsConflict(l, r)
  {
  }

  /** Two calls whose effects are known conflict exactly when one may write what the other may touch,
      or a change and a use of the whole workspace and of something outside it meet. */
  lemma ConflictIff(f: Footprint, g: Footprint)
    ensures Conflicts(f, g) <==> f.unknown || g.unknown || ShareWritten(f, g) || CrossWorkspace(f, g)
  {
    hide Overlap;
    if !f.unknown && !g.unknown {
      if Conflicts(f, g) {
        var l, r :| l in f.effects && r in g.effects && EffectsConflict(l, r);
        OverlapMeets(l.resource, r.resource);
        if Covers(l.resource, Meeting(l.resource, r.resource)) && Covers(r.resource, Meeting(l.resource, r.resource)) {
          assert MayTouch(f, Meeting(l.resource, r.resource)) && MayTouch(g, Meeting(l.resource, r.resource));
        }
      } else {
        if c :| (MayWrite(f, c) && MayTouch(g, c)) || (MayTouch(f, c) && MayWrite(g, c)) {
          NoConflictSeparates(f, g, c);
        }
        if CrossWorkspace(f, g) {
          var l, r :| l in f.effects && r in g.effects && (!l.Read? || !r.Read?)
            && ((l.resource.Workspace? && IsOutside(r.resource)) || (IsOutside(l.resource) && r.resource.Workspace?));
          CrossIsOverlap(l, r);
        }
      }
    }
  }

  /** Two steps with non-conflicting footprints reach the same world and the same private
      states in either order. */
  lemma NonConflictingStepsCommute(
    f: Step, footF: Footprint, g: Step, footG: Footprint, w: World, lf: Local, lg: Local)
    requires Respects(f, footF) && Respects(g, footG)
    requires !Conflicts(footF, footG)
    ensures g(f(w, lf).0, lg).0 == f(g(w, lg).0, lf).0
    ensures g(f(w, lf).0, lg).1 == g(w, lg).1
    ensures f(g(w, lg).0, lf).1 == f(w, lf).1
  {
    var wf, wg := f(w, lf).0, g(w, lg).0;
    forall c ensures MayTouch(footG, c) ==> SameAt(wf, w, c) {
      NoConflictSeparates(footF, footG, c);
    }
    forall c ensures MayTouch(footF, c) ==> SameAt(wg, w, c) {
      NoConflictSeparates(footF, footG, c);
    }
    assert AgreeOnTouched(footG, wf, w) && AgreeOnTouched(footF, wg, w);
    var fg, gf := g(wf, lg).0, f(wg, lf).0;
    forall c ensures SameAt(fg, gf, c) {
      NoConflictSeparates(footF, footG, c);
      if MayWrite(footF, c) {
        assert SameAt(fg, wf, c) && SameAt(gf, wf, c);
      } else if MayWrite(footG, c) {
        assert SameAt(fg, wg, c) && SameAt(gf, wg, c);
      } else {
        assert SameAt(fg, wf, c) && SameAt(wf, w, c) && SameAt(gf, wg, c) && SameAt(wg, w, c);
      }
    }
    SameEverywhere(fg, gf);
  }

  lemma SameEverywhere(u: World, v: World)
    requires forall c :: SameAt(u, v, c)
    ensures u == v
  {
    forall c ensures (c in u <==> c in v) && (c in u && c in v ==> u[c] == v[c]) {
      assert SameAt(u, v, c);
    }
  }
}
