/**
 * What the transformation tools see of a selection: its manifestations
 * (connectors, struts, panels, others), each with the construction it
 * realises, and the transformations a tool can be given.
 */
module Selections {
  import G = Geometry

  /** A construction Point: the centre a connector realises. */
  datatype Point = Point(id: nat, location: G.Vector)

  /** A construction Segment: the segment a strut realises, with its offset. */
  datatype Segment = Segment(id: nat, offset: G.Vector)

  datatype Manifestation =
    | Connector(point: Point)
    | Strut(segment: Segment)
    | Panel
    | OtherManifestation

  /** The transformations the linear-map and scaling tools create. */
  datatype Transformation =
    | ChangeOfBasis(oldBasis: seq<Segment>, newBasis: seq<Segment>, center: Point)
    | ChangeOfBasisScaled(s0: Segment, s1: Segment, s2: Segment, center: Point, originalScaling: bool)
    | Scaling(before: Segment, after: Segment, center: Point)

  function CountConnectors(sel: seq<Manifestation>): nat
    decreases |sel|
  {
    if sel == [] then 0
    else CountConnectors(sel[..|sel| - 1]) + (if sel[|sel| - 1].Connector? then 1 else 0)
  }

  /** The segments of the struts of the selection, in selection order. */
  function Struts(sel: seq<Manifestation>): seq<Segment>
    decreases |sel|
  {
    if sel == [] then []
    else Struts(sel[..|sel| - 1]) + (if sel[|sel| - 1].Strut? then [sel[|sel| - 1].segment] else [])
  }

  predicate HasPanel(sel: seq<Manifestation>)
  {
    exists i :: 0 <= i < |sel| && sel[i].Panel?
  }

  /** The first connector's point, when there is one. */
  function FirstConnector(sel: seq<Manifestation>): Point
    requires CountConnectors(sel) > 0
    decreases |sel|
  {
    if CountConnectors(sel[..|sel| - 1]) > 0 then FirstConnector(sel[..|sel| - 1]) else sel[|sel| - 1].point
  }

  lemma {:induction false} CountsAppend(a: seq<Manifestation>, b: seq<Manifestation>)
    ensures CountConnectors(a + b) == CountConnectors(a) + CountConnectors(b)
    ensures Struts(a + b) == Struts(a) + Struts(b)
    decreases |b|
  {
    if b == [] {
      assert a + b == a;
    } else {
      var b' := b[..|b| - 1];
      assert (a + b)[..|a + b| - 1] == a + b';
      assert (a + b)[|a + b| - 1] == b[|b| - 1];
      CountsAppend(a, b');
    }
  }

  lemma HasPanelSnoc(p: seq<Manifestation>, m: Manifestation)
    ensures HasPanel(p + [m]) <==> HasPanel(p) || m.Panel?
  {
    var sel := p + [m];
    if HasPanel(p) {
      var i :| 0 <= i < |p| && p[i].Panel?;
      assert sel[i] == p[i];
    }
    if HasPanel(sel) && !m.Panel? {
      var i :| 0 <= i < |sel| && sel[i].Panel?;
      assert p[i] == sel[i];
    }
    if m.Panel? {
      assert sel[|p|] == m;
    }
  }

  /** A panel or another manifestation adds neither a connector nor a strut. */
  lemma {:induction false} OtherAddsNothing(a: seq<Manifestation>, m: Manifestation, b: seq<Manifestation>)
    requires m.Panel? || m.OtherManifestation?
    ensures CountConnectors(a + [m] + b) == CountConnectors(a + b)
    ensures Struts(a + [m] + b) == Struts(a + b)
  {
    CountsAppend(a + [m], b);
    CountsAppend(a, [m]);
    CountsAppend(a, b);
    assert [m][..0] == [];
  }
}
