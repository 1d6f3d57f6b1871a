/**
 * The scaling tool's selection check: a centre connector (optional only
 * while the tool is being prepared), exactly two struts from the same
 * orbit, and no panels unless the tool is being prepared.
 */
module ScalingTools {
  import opened Wrappers
  import opened Selections
  import G = Geometry

  const NoCenterError: string := "No symmetry center selected"
  const StrutsError: string := "scaling tool requires before and after struts, and a single center"
  const OrbitError: string := "before and after struts must be from the same orbit"

  /** The variables of checkSelection's scan after some manifestations. */
  datatype Scan = Scan(s1: Option<Segment>, s2: Option<Segment>, center: Option<Point>,
                       correct: bool, hasPanels: bool, scanned: nat)

  /** One iteration of the scan over a manifestation. */
  function Step(s: Scan, m: Manifestation): (r: Scan)
    ensures r.scanned == s.scanned + 1
    ensures r.correct <==> s.correct && !(m.Connector? && s.center.Some?) && !(m.Strut? && s.s2.Some?)
    ensures r.s2.Some? && s.s2.None? ==> r.s1 == s.s1
  {
    var s' := s.(scanned := s.scanned + 1);
    match m
    case Connector(p) => if s.center.Some? then s'.(correct := false) else s'.(center := Some(p))
    case Strut(seg) =>
      if s.s2.Some? then s'.(correct := false)
      else if s.s1.None? then s'.(s1 := Some(seg))
      else s'.(s2 := Some(seg))
    case Panel => s'.(hasPanels := true)
    case OtherManifestation => s'
  }

  /** The scan over a selection; it stops at the first manifestation that makes it incorrect. */
  function ScanSelection(sel: seq<Manifestation>): (r: Scan)
    ensures r.s2.Some? ==> r.s1.Some?
    ensures r.scanned <= |sel|
    decreases |sel|
  {
    if sel == [] then Scan(None, None, None, true, false, 0)
    else
      var s := ScanSelection(sel[..|sel| - 1]);
      if s.correct then Step(s, sel[|sel| - 1]) else s
  }

  /**
   * checkSelection's result, None standing for null; orbitOf gives the
   * orbit (the direction of the symmetry axis) of a strut offset.
   */
  function Verdict(sel: seq<Manifestation>, prepareTool: bool, orbitOf: G.Vector -> nat): (r: Option<string>)
    ensures r.None? || r == Some(NoCenterError) || r == Some(StrutsError) || r == Some(OrbitError)
    ensures prepareTool ==> r != Some(NoCenterError)
  {
    var s := ScanSelection(sel);
    if s.center.None? && !prepareTool then Some(NoCenterError)
    else if !(s.correct && s.s2.Some?) || (!prepareTool && s.hasPanels) then Some(StrutsError)
    else if orbitOf(s.s1.value.offset) != orbitOf(s.s2.value.offset) then Some(OrbitError)
    else None
  }

  /** The scaling a prepared tool holds: from the first strut to the second, about the centre. */
  function Transform(sel: seq<Manifestation>, originPoint: Point): Transformation
    requires ScanSelection(sel).s2.Some?
  {
    var s := ScanSelection(sel);
    Scaling(s.s1.value, s.s2.value, if s.center.Some? then s.center.value else originPoint)
  }

  lemma ScanSnoc(sel: seq<Manifestation>, m: Manifestation)
    ensures ScanSelection(sel + [m]) == if ScanSelection(sel).correct then Step(ScanSelection(sel), m) else ScanSelection(sel)
  {
    assert (sel + [m])[..|sel|] == sel;
  }

  /**
   * While it is correct, the scan has seen every manifestation: s1 and s2
   * are the first two struts, the centre is the only connector and
   * hasPanels says whether there is a panel.
   */
  lemma {:induction false} ScanWhileCorrect(sel: seq<Manifestation>)
    ensures ScanSelection(sel).correct <==> CountConnectors(sel) <= 1 && |Struts(sel)| <= 2
    ensures var s := ScanSelection(sel);
      s.correct ==>
        && s.scanned == |sel|
        && s.hasPanels == HasPanel(sel)
        && (s.s1.Some? <==> |Struts(sel)| >= 1)
        && (s.s1.Some? ==> s.s1.value == Struts(sel)[0])
        && (s.s2.Some? <==> |Struts(sel)| == 2)
        && (s.s2.Some? ==> s.s2.value == Struts(sel)[1])
        && (s.center.Some? <==> CountConnectors(sel) == 1)
        && (s.center.Some? ==> s.center.value == FirstConnector(sel))
    decreases |sel|
  {
    if sel != [] {
      var p, m := sel[..|sel| - 1], sel[|sel| - 1];
      assert sel == p + [m];
      ScanSnoc(p, m);
      ScanWhileCorrect(p);
      CountsAppend(p, [m]);
      assert [m][..0] == [];
      HasPanelSnoc(p, m);
    }
  }

  /**
   * The scan stops at a second connector or a third strut and scans
   * nothing after it; its centre is the first connector it saw.
   */
  lemma {:induction false} ScanStops(sel: seq<Manifestation>)
    ensures var s := ScanSelection(sel);
      && ScanSelection(sel[..s.scanned]) == s
      && (s.center.Some? <==> CountConnectors(sel[..s.scanned]) > 0)
      && (!s.correct ==>
            && 0 < s.scanned
            && ((sel[s.scanned - 1].Connector? && CountConnectors(sel[..s.scanned]) == 2)
                || (sel[s.scanned - 1].Strut? && |Struts(sel[..s.scanned])| == 3)))
    decreases |sel|
  {
    if sel == [] {
      assert sel[..0] == sel;
    } else {
      var p, m := sel[..|sel| - 1], sel[|sel| - 1];
      assert sel == p + [m];
      ScanSnoc(p, m);
      var sp := ScanSelection(p);
      if sp.correct {
        StepFromCorrectScan(p, m);
        assert sel[..|sel|] == sel && sel[|sel| - 1] == m;
      } else {
        ScanStops(p);
        assert sel[..sp.scanned] == p[..sp.scanned];
      }
    }
  }

  /** The step after a correct scan: the centre and the reason it may stop, in terms of the counts. */
  lemma StepFromCorrectScan(p: seq<Manifestation>, m: Manifestation)
    requires ScanSelection(p).correct
    ensures var s := Step(ScanSelection(p), m);
      && s.scanned == |p| + 1
      && (s.center.Some? <==> CountConnectors(p + [m]) > 0)
      && (!s.correct ==>
            ((m.Connector? && CountConnectors(p + [m]) == 2) || (m.Strut? && |Struts(p + [m])| == 3)))
  {
    ScanWhileCorrect(p);
    CountsAppend(p, [m]);
    assert [m][..0] == [];
  }

  /**
   * The scaling tool's scan, like the linear-map tool's, breaks out of its
   * loop: once it is incorrect, the rest of the selection does not change it.
   */
  lemma {:induction false} StoppedScanIsFinal(sel: seq<Manifestation>, k: nat)
    requires k <= |sel| && !ScanSelection(sel[..k]).correct
    ensures ScanSelection(sel) == ScanSelection(sel[..k])
    decreases |sel| - k
  {
    if k < |sel| {
      assert sel[..k + 1][..k] == sel[..k];
      StoppedScanIsFinal(sel, k + 1);
    } else {
      assert sel[..k] == sel;
    }
  }

  /**
   * The selection is accepted iff it has at most one connector (exactly one
   * when only validating), exactly two struts in the same orbit, and no
   * panel unless the tool is being prepared.
   */
  lemma AcceptedIff(sel: seq<Manifestation>, prepareTool: bool, orbitOf: G.Vector -> nat)
    ensures Verdict(sel, prepareTool, orbitOf).None? <==>
      && CountConnectors(sel) <= 1
      && (prepareTool || CountConnectors(sel) == 1)
      && |Struts(sel)| == 2
      && (prepareTool || !HasPanel(sel))
      && orbitOf(Struts(sel)[0].offset) == orbitOf(Struts(sel)[1].offset)
  {
    ScanWhileCorrect(sel);
  }

  /** Without any connector, validation reports the missing centre before anything else. */
  lemma NoCenterComesFirst(sel: seq<Manifestation>, orbitOf: G.Vector -> nat)
    requires CountConnectors(sel) == 0
    ensures Verdict(sel, false, orbitOf) == Some(NoCenterError)
  {
    var s := ScanSelection(sel);
    ScanStops(sel);
    CountsAppend(sel[..s.scanned], sel[s.scanned..]);
    assert sel[..s.scanned] + sel[s.scanned..] == sel;
  }

  /** Fewer than two struts, with a centre or while preparing, is the struts error. */
  lemma TooFewStruts(sel: seq<Manifestation>, prepareTool: bool, orbitOf: G.Vector -> nat)
    requires |Struts(sel)| < 2
    requires prepareTool || CountConnectors(sel) > 0
    ensures Verdict(sel, prepareTool, orbitOf) == Some(StrutsError)
  {
    var s := ScanSelection(sel);
    ScanWhileCorrect(sel);
    if !s.correct {
      ScanStops(sel);
      CountsAppend(sel[..s.scanned], sel[s.scanned..]);
      assert sel[..s.scanned] + sel[s.scanned..] == sel;
    }
  }

  /** A panel is refused while validating. */
  lemma PanelRefusedWhenValidating(sel: seq<Manifestation>, orbitOf: G.Vector -> nat)
    requires HasPanel(sel)
    ensures Verdict(sel, false, orbitOf).Some?
  {
    AcceptedIff(sel, false, orbitOf);
  }

  /** While preparing, the verdict depends only on the connector count and the struts. */
  lemma VerdictWhenPreparing(sel: seq<Manifestation>, orbitOf: G.Vector -> nat)
    ensures Verdict(sel, true, orbitOf) ==
      if CountConnectors(sel) <= 1 && |Struts(sel)| == 2 then
        (if orbitOf(Struts(sel)[0].offset) != orbitOf(Struts(sel)[1].offset) then Some(OrbitError) else None)
      else Some(StrutsError)
  {
    ScanWhileCorrect(sel);
  }

  /**
   * While validating a selection of at most two struts, the message is the
   * first rule broken: no centre, then not exactly one centre, two struts
   * and no panel, then different orbits.
   */
  lemma VerdictWhenValidating(sel: seq<Manifestation>, orbitOf: G.Vector -> nat)
    requires |Struts(sel)| <= 2
    ensures Verdict(sel, false, orbitOf) ==
      if CountConnectors(sel) == 0 then Some(NoCenterError)
      else if CountConnectors(sel) > 1 || |Struts(sel)| < 2 || HasPanel(sel) then Some(StrutsError)
      else if orbitOf(Struts(sel)[0].offset) != orbitOf(Struts(sel)[1].offset) then Some(OrbitError)
      else None
  {
    ScanWhileCorrect(sel);
    if CountConnectors(sel) == 0 {
      NoCenterComesFirst(sel, orbitOf);
    } else if !ScanSelection(sel).correct {
      ScanStops(sel);
      var k := ScanSelection(sel).scanned;
      CountsAppend(sel[..k], sel[k..]);
      assert sel[..k] + sel[k..] == sel;
    }
  }

  /**
   * A third strut breaks the scan there: validating then reports the
   * missing centre when no connector came before it, and the struts
   * message otherwise, whatever follows.
   */
  lemma ThirdStrutVerdict(a: seq<Manifestation>, x: Segment, b: seq<Manifestation>, orbitOf: G.Vector -> nat)
    requires |Struts(a)| == 2
    ensures Verdict(a + [Strut(x)] + b, false, orbitOf) ==
      if CountConnectors(a) == 0 then Some(NoCenterError) else Some(StrutsError)
  {
    var sel := a + [Strut(x)] + b;
    ScanWhileCorrect(a);
    var sa := ScanSelection(a);
    if sa.correct {
      ScanSnoc(a, Strut(x));
      assert sel[..|a| + 1] == a + [Strut(x)];
      StoppedScanIsFinal(sel, |a| + 1);
    } else {
      ScanStops(a);
      CountsAppend(a[..sa.scanned], a[sa.scanned..]);
      assert a[..sa.scanned] + a[sa.scanned..] == a;
      assert sel[..|a|] == a;
      StoppedScanIsFinal(sel, |a|);
    }
  }

  /** So, while preparing, a panel anywhere in the selection changes nothing in the verdict. */
  lemma PanelIgnoredWhenPreparing(a: seq<Manifestation>, b: seq<Manifestation>, orbitOf: G.Vector -> nat)
    ensures Verdict(a + [Panel] + b, true, orbitOf) == Verdict(a + b, true, orbitOf)
  {
    OtherAddsNothing(a, Panel, b);
    VerdictWhenPreparing(a + [Panel] + b, orbitOf);
    VerdictWhenPreparing(a + b, orbitOf);
  }

  /** The scaling goes from the first strut to the second, about the connector or else the origin. */
  lemma TransformFromSelection(sel: seq<Manifestation>, originPoint: Point, orbitOf: G.Vector -> nat)
    requires Verdict(sel, true, orbitOf).None?
    ensures ScanSelection(sel).s2.Some? && |Struts(sel)| == 2
    ensures Transform(sel, originPoint) ==
      Scaling(Struts(sel)[0], Struts(sel)[1], if CountConnectors(sel) == 1 then FirstConnector(sel) else originPoint)
  {
    ScanWhileCorrect(sel);
  }

  class ScalingTool {
    const name: string
    const symmetry: G.Symmetry
    /** The selection the tool was defined from (mSelection). */
    const selection: seq<Manifestation>
    const originPoint: Point
    /** The manifestations unselected so far, in order. */
    var unselected: seq<Manifestation>
    /** The tool's transformations; None until the tool is prepared. */
    var transforms: Option<seq<Transformation>>

    constructor(name: string, symmetry: G.Symmetry, selection: seq<Manifestation>, originPoint: Point)
      ensures this.name == name && this.symmetry == symmetry
      ensures this.selection == selection && this.originPoint == originPoint
      ensures unselected == [] && transforms == None
    {
      this.name := name;
      this.symmetry := symmetry;
      this.selection := selection;
      this.originPoint := originPoint;
      unselected := [];
      transforms := None;
    }

    /** checkSelection's loop over the selection. */
    method ScanStruts(prepareTool: bool)
      returns (s1: Option<Segment>, s2: Option<Segment>, center: Option<Point>, correct: bool, hasPanels: bool)
      modifies this`unselected
      ensures var s := ScanSelection(selection);
        s1 == s.s1 && s2 == s.s2 && center == s.center && correct == s.correct && hasPanels == s.hasPanels
      ensures unselected == old(unselected) + (if prepareTool then selection[..ScanSelection(selection).scanned] else [])
    {
      s1, s2, center, correct, hasPanels := None, None, None, true, false;
      var i := 0;
      while i < |selection| && correct
        invariant 0 <= i <= |selection|
        invariant ScanSelection(selection[..i]) == Scan(s1, s2, center, correct, hasPanels, i)
        invariant unselected == old(unselected) + (if prepareTool then selection[..i] else [])
      {
        var man := selection[i];
        ScanSnoc(selection[..i], man);
        assert selection[..i + 1] == selection[..i] + [man];
        if prepareTool {
          unselected := unselected + [man];
        }
        match man {
        case Connector(p) =>
          if center.Some? {
            correct := false;
          } else {
            center := Some(p);
          }
        case Strut(seg) =>
          if s2.Some? {
            correct := false;
          } else if s1.None? {
            s1 := Some(seg);
          } else {
            s2 := Some(seg);
          }
        case Panel =>
          hasPanels := true;
        case OtherManifestation =>
        }
        i := i + 1;
      }
      if correct {
        assert selection[..i] == selection;
      } else {
        StoppedScanIsFinal(selection, i);
      }
    }

    method CheckSelection(prepareTool: bool) returns (error: Option<string>)
      modifies this`unselected, this`transforms
      ensures error == Verdict(selection, prepareTool, symmetry.axisOrbit)
      ensures unselected == old(unselected) + (if prepareTool then selection[..ScanSelection(selection).scanned] else [])
      ensures transforms == if prepareTool && error.None? then Some([Transform(selection, originPoint)]) else old(transforms)
    {
      var s1, s2, center, correct, hasPanels := ScanStruts(prepareTool);
      if center.None? {
        if prepareTool {
          center := Some(originPoint);
        } else {
          return Some(NoCenterError);
        }
      }
      correct := correct && s2.Some?;
      if !prepareTool && hasPanels {
        correct := false;
      }
      if !correct {
        return Some(StrutsError);
      }
      var orbit := symmetry.axisOrbit(s1.value.offset);
      if orbit != symmetry.axisOrbit(s2.value.offset) {
        return Some(OrbitError);
      }
      if prepareTool {
        transforms := Some([Scaling(s1.value, s2.value, center.value)]);
      }
      return None;
    }
  }
}
