/** Routes, and when two of them are open to one chain. */
module Routes {
  import opened Prelude

  type Agent = string
  type Pipeline = string

  datatype Join = All | Any

  datatype Mode = Async | Spawn

  datatype Route = Route(
    from: seq<Agent>,
    to: seq<Agent>,
    mode: Mode,
    join: Option<Join>,
    timeoutSec: Option<nat>,
    pipelines: Option<seq<Pipeline>>)
  {
    predicate IsSpawn() {
      mode.Spawn?
    }

    /** Global routes apply to all; scoped ones to the pipelines they name, and never to none. */
    predicate AppliesTo(pipeline: Option<Pipeline>) {
      match pipelines
      case None => true
      case Some(names) => pipeline.Some? && pipeline.value in names
    }

    /** Whether the route names an empty list of pipelines, which no chain belongs to. */
    predicate NamesNobody() {
      pipelines == Some([])
    }

    predicate Overlaps(other: Route) {
      match (pipelines, other.pipelines)
      case (None, _) => true
      case (_, None) => true
      case (Some(mine), Some(theirs)) => exists name :: name in mine && name in theirs
    }

    function SharedPipelines(other: Route): seq<Pipeline> {
      match (pipelines, other.pipelines)
      case (None, None) => []
      case (Some(names), None) => names
      case (None, Some(names)) => names
      case (Some(mine), Some(theirs)) => Keep(mine, theirs)
    }
  }

  function Keep(mine: seq<Pipeline>, theirs: seq<Pipeline>): (kept: seq<Pipeline>)
    ensures forall name :: name in kept <==> name in mine && name in theirs
  {
    if mine == [] then []
    else if mine[0] in theirs then [mine[0]] + Keep(mine[1..], theirs)
    else Keep(mine[1..], theirs)
  }

  /** Those of `routes` that apply to `pipeline`, in order. */
  function Applying(routes: seq<Route>, pipeline: Option<Pipeline>): (kept: seq<Route>)
    ensures forall r :: r in kept <==> r in routes && r.AppliesTo(pipeline)
  {
    if routes == [] then []
    else if routes[0].AppliesTo(pipeline) then [routes[0]] + Applying(routes[1..], pipeline)
    else Applying(routes[1..], pipeline)
  }

  /** `Overlaps` means that some chain could use both routes, except when one is global and the
      other names an empty list of pipelines: then it says so, and no chain could. */
  lemma OverlapIsASharedChain(a: Route, b: Route)
    ensures (exists p :: a.AppliesTo(p) && b.AppliesTo(p))
            <==> a.Overlaps(b) && !a.NamesNobody() && !b.NamesNobody()
  {
    if a.Overlaps(b) && !a.NamesNobody() && !b.NamesNobody() {
      var p := match (a.pipelines, b.pipelines)
        case (None, None) => None
        case (Some(names), None) => Some(names[0])
        case (None, Some(names)) => Some(names[0])
        case (Some(mine), Some(theirs)) =>
          var name :| name in mine && name in theirs; Some(name);
      assert a.AppliesTo(p) && b.AppliesTo(p);
    }
    if p :| a.AppliesTo(p) && b.AppliesTo(p) {
      if a.pipelines.Some? && b.pipelines.Some? {
        assert p.value in a.pipelines.value && p.value in b.pipelines.value;
      }
    }
  }

  /** The pipelines said to collide are exactly those whose chains may use both routes, when at
      least one of the two is scoped. */
  lemma SharedPipelinesAreTheCollisions(a: Route, b: Route, name: Pipeline)
    requires a.pipelines.Some? || b.pipelines.Some?
    ensures name in a.SharedPipelines(b) <==> a.AppliesTo(Some(name)) && b.AppliesTo(Some(name))
  {
  }
}
