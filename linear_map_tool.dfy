/**
 * The linear-map tool's selection check: at most one connector (the
 * centre) and exactly three struts (one basis) or six (an old and a new
 * basis), with panels and other manifestations ignored.
 */
module LinearMapTools {
  import opened Wrappers
  import opened Selections

  const LinearMapError: string :=
    "linear map tool requires three adjacent, non-parallel struts (or two sets of three) and a single (optional) center ball"

  /**
   * The variables of checkSelection's scan after some manifestations: the
   * struts taken so far (index is their number), the centre, whether the
   * scan is still correct, and how many manifestations it has looked at.
   */
  datatype Scan = Scan(struts: seq<Segment>, center: Option<Point>, correct: bool, scanned: nat)

  /** One iteration of the scan over a manifestation. */
  function Step(s: Scan, m: Manifestation): (r: Scan)
    ensures r.scanned == s.scanned + 1
    ensures r.correct <==> s.correct && !(m.Connector? && s.center.Some?) && !(m.Strut? && |s.struts| >= 6)
    ensures |s.struts| <= 6 ==> |r.struts| <= 6
  {
    var s' := s.(scanned := s.scanned + 1);
    match m
    case Connector(p) => if s.center.Some? then s'.(correct := false) else s'.(center := Some(p))
    case Strut(seg) => if |s.struts| >= 6 then s'.(correct := false) else s'.(struts := s.struts + [seg])
    case _ => s'
  }

  /** The scan over a selection; it stops at the first manifestation that makes it incorrect. */
  function ScanSelection(sel: seq<Manifestation>): (r: Scan)
    ensures |r.struts| <= 6 && r.scanned <= |sel|
    decreases |sel|
  {
    if sel == [] then Scan([], None, true, 0)
    else
      var s := ScanSelection(sel[..|sel| - 1]);
      if s.correct then Step(s, sel[|sel| - 1]) else s
  }

  /** checkSelection's result: null (None) or the error message. */
  function Verdict(sel: seq<Manifestation>): (r: Option<string>)
    ensures r.None? || r == Some(LinearMapError)
  {
    var s := ScanSelection(sel);
    if s.correct && (|s.struts| == 3 || |s.struts| == 6) then None else Some(LinearMapError)
  }

  /** The transformation a prepared tool holds for an accepted selection. */
  function Transform(sel: seq<Manifestation>, originPoint: Point, originalScaling: bool): Transformation
    requires Verdict(sel).None?
  {
    var s := ScanSelection(sel);
    var center := if s.center.Some? then s.center.value else originPoint;
    if |s.struts| == 6 then ChangeOfBasis(s.struts[..3], s.struts[3..], center)
    else ChangeOfBasisScaled(s.struts[0], s.struts[1], s.struts[2], center, originalScaling)
  }

  /** Scanning one more manifestation is one more step, unless the scan has stopped. */
  lemma ScanSnoc(sel: seq<Manifestation>, m: Manifestation)
    ensures ScanSelection(sel + [m]) == if ScanSelection(sel).correct then Step(ScanSelection(sel), m) else ScanSelection(sel)
  {
    assert (sel + [m])[..|sel|] == sel;
  }

  /** The three basis slots starting at strut number from, as the scan fills them. */
  function Slots(struts: seq<Segment>, from: nat): (r: seq<Option<Segment>>)
    ensures |r| == 3
  {
    seq(3, k requires 0 <= k => if from + k < |struts| then Some(struts[from + k]) else None)
  }

  /** The scan over one more manifestation of the selection is one more step, unless it has stopped. */
  lemma ScanAdvance(sel: seq<Manifestation>, i: nat)
    requires i < |sel|
    ensures ScanSelection(sel[..i + 1]) ==
      if ScanSelection(sel[..i]).correct then Step(ScanSelection(sel[..i]), sel[i]) else ScanSelection(sel[..i])
  {
    ScanSnoc(sel[..i], sel[i]);
    assert sel[..i + 1] == sel[..i] + [sel[i]];
  }

  /**
   * One iteration of checkSelection's loop on a correct scan: a strut is
   * stored at slot index % 3 of the basis index / 3 picks.
   */
  method ScanOne(man: Manifestation, oldBasis: array<Option<Segment>>, newBasis: array<Option<Segment>>,
                 index: nat, center: Option<Point>, ghost struts: seq<Segment>, ghost scanned: nat)
    returns (index': nat, correct': bool, center': Option<Point>, ghost struts': seq<Segment>)
    requires oldBasis != newBasis && oldBasis.Length == 3 && newBasis.Length == 3
    requires index == |struts| <= 6
    requires oldBasis[..] == Slots(struts, 0) && newBasis[..] == Slots(struts, 3)
    modifies oldBasis, newBasis
    ensures Scan(struts', center', correct', scanned + 1) == Step(Scan(struts, center, true, scanned), man)
    ensures index' == |struts'|
    ensures oldBasis[..] == Slots(struts', 0) && newBasis[..] == Slots(struts', 3)
  {
    index', correct', center', struts' := index, true, center, struts;
    match man {
    case Connector(p) =>
      if center.Some? {
        correct' := false;
      } else {
        center' := Some(p);
      }
    case Strut(seg) =>
      if index >= 6 {
        correct' := false;
      } else {
        SlotsSnoc(struts, seg);
        if index / 3 == 0 {
          oldBasis[index % 3] := Some(seg);
        } else {
          newBasis[index % 3] := Some(seg);
        }
        index' := index + 1;
        struts' := struts + [seg];
      }
    case _ =>
    }
  }

  /** The next strut goes to the old basis while fewer than three are taken, else to the new one. */
  lemma SlotsSnoc(struts: seq<Segment>, seg: Segment)
    requires |struts| < 6
    ensures var n := |struts|;
      && Slots(struts + [seg], 0) == (if n / 3 == 0 then Slots(struts, 0)[n % 3 := Some(seg)] else Slots(struts, 0))
      && Slots(struts + [seg], 3) == (if n / 3 == 0 then Slots(struts, 3) else Slots(struts, 3)[n % 3 := Some(seg)])
  {
  }

  /** While it is correct, the scan has seen every manifestation and holds every strut and the only connector. */
  lemma {:induction false} ScanWhileCorrect(sel: seq<Manifestation>)
    ensures ScanSelection(sel).correct <==> CountConnectors(sel) <= 1 && |Struts(sel)| <= 6
    ensures ScanSelection(sel).correct ==>
      && ScanSelection(sel).scanned == |sel|
      && ScanSelection(sel).struts == Struts(sel)
      && (ScanSelection(sel).center.Some? <==> CountConnectors(sel) == 1)
      && (ScanSelection(sel).center.Some? ==> ScanSelection(sel).center.value == FirstConnector(sel))
    decreases |sel|
  {
    if sel != [] {
      var p, m := sel[..|sel| - 1], sel[|sel| - 1];
      assert sel == p + [m];
      ScanSnoc(p, m);
      ScanWhileCorrect(p);
      CountsAppend(p, [m]);
      assert [m][..0] == [];
    }
  }

  /**
   * An incorrect scan stopped at a second connector or at a seventh strut,
   * and scanned nothing after it.
   */
  lemma {:induction false} ScanStops(sel: seq<Manifestation>)
    requires !ScanSelection(sel).correct
    ensures var s := ScanSelection(sel);
      && 0 < s.scanned <= |sel|
      && ScanSelection(sel[..s.scanned]) == s
      && ((sel[s.scanned - 1].Connector? && CountConnectors(sel[..s.scanned]) == 2)
          || (sel[s.scanned - 1].Strut? && |Struts(sel[..s.scanned])| == 7))
    decreases |sel|
  {
    var p, m := sel[..|sel| - 1], sel[|sel| - 1];
    assert sel == p + [m];
    if ScanSelection(p).correct {
      ScanWhileCorrect(p);
      CountsAppend(p, [m]);
      assert [m][..0] == [];
      assert sel[..|sel|] == sel;
    } else {
      ScanStops(p);
      var k := ScanSelection(p).scanned;
      assert sel[..k] == p[..k];
    }
  }

  /** Once the scan is incorrect, the rest of the selection does not change it. */
  lemma {:induction false} StoppedScanIsFinal(sel: seq<Manifestation>, k: nat)
    requires k <= |sel| && !ScanSelection(sel[..k]).correct
    ensures ScanSelection(sel) == ScanSelection(sel[..k])
    decreases |sel| - k
  {
    if k < |sel| {
      assert sel[..k + 1][..k] == sel[..k];
      StoppedScanIsFinal(sel, k + 1);
    } else {
      assert sel[..k] == sel;
    }
  }

  /** The selection is accepted iff it has at most one connector and exactly three or six struts. */
  lemma AcceptedIff(sel: seq<Manifestation>)
    ensures Verdict(sel).None? <==> CountConnectors(sel) <= 1 && (|Struts(sel)| == 3 || |Struts(sel)| == 6)
    ensures Verdict(sel).Some? ==> Verdict(sel) == Some(LinearMapError)
  {
    ScanWhileCorrect(sel);
  }

  /**
   * The bases are the struts in selection order: the first three are the
   * old basis and the next three the new one; the centre is the connector,
   * or the origin when there is none.
   */
  lemma TransformFromSelection(sel: seq<Manifestation>, originPoint: Point, originalScaling: bool)
    requires Verdict(sel).None?
    ensures var struts := Struts(sel);
      var center := if CountConnectors(sel) == 1 then FirstConnector(sel) else originPoint;
      && (|struts| == 6 ==> Transform(sel, originPoint, originalScaling) == ChangeOfBasis(struts[..3], struts[3..6], center))
      && (|struts| == 3 ==> Transform(sel, originPoint, originalScaling) == ChangeOfBasisScaled(struts[0], struts[1], struts[2], center, originalScaling))
  {
    ScanWhileCorrect(sel);
  }

  /** A panel or another manifestation anywhere in the selection changes nothing in the verdict. */
  lemma OthersIgnored(a: seq<Manifestation>, m: Manifestation, b: seq<Manifestation>)
    requires m.Panel? || m.OtherManifestation?
    ensures Verdict(a + [m] + b) == Verdict(a + b)
  {
    OtherAddsNothing(a, m, b);
    AcceptedIff(a + [m] + b);
    AcceptedIff(a + b);
  }

  class LinearMapTool {
    const name: string
    /** The selection the tool was defined from (mSelection). */
    const selection: seq<Manifestation>
    const originPoint: Point
    const originalScaling: bool
    /** The manifestations unselected so far, in order. */
    var unselected: seq<Manifestation>
    /** The tool's transformations; None until the tool is prepared. */
    var transforms: Option<seq<Transformation>>

    constructor(name: string, selection: seq<Manifestation>, originPoint: Point, originalScaling: bool)
      ensures this.name == name && this.selection == selection
      ensures this.originPoint == originPoint && this.originalScaling == originalScaling
      ensures unselected == [] && transforms == None
    {
      this.name := name;
      this.selection := selection;
      this.originPoint := originPoint;
      this.originalScaling := originalScaling;
      unselected := [];
      transforms := None;
    }

    /** The five-argument constructor: originalScaling is false. */
    constructor WithoutOriginalScaling(name: string, selection: seq<Manifestation>, originPoint: Point)
      ensures this.name == name && this.selection == selection
      ensures this.originPoint == originPoint && !originalScaling
      ensures unselected == [] && transforms == None
    {
      this.name := name;
      this.selection := selection;
      this.originPoint := originPoint;
      originalScaling := false;
      unselected := [];
      transforms := None;
    }

    /**
     * equals, given superEquals, the result of the inherited comparison
     * with that: two distinct tools with different originalScaling are
     * never equal.
     */
    predicate Equals(that: LinearMapTool, superEquals: bool)
      ensures this == that ==> Equals(that, superEquals)
      ensures Equals(that, superEquals) && this != that ==> superEquals && originalScaling == that.originalScaling
      ensures this != that && superEquals && originalScaling == that.originalScaling ==> Equals(that, superEquals)
    {
      if this == that then true
      else if !superEquals then false
      else if originalScaling != that.originalScaling then false
      else true
    }

    /** checkSelection's loop over the selection, which fills the two bases. */
    method ScanBases(prepareTool: bool)
      returns (oldBasis: array<Option<Segment>>, newBasis: array<Option<Segment>>, index: nat,
               correct: bool, center: Option<Point>, ghost struts: seq<Segment>)
      modifies this`unselected
      ensures fresh(oldBasis) && fresh(newBasis) && oldBasis.Length == 3 && newBasis.Length == 3
      ensures ScanSelection(selection).struts == struts && ScanSelection(selection).center == center
      ensures ScanSelection(selection).correct == correct && index == |struts|
      ensures oldBasis[..] == Slots(struts, 0) && newBasis[..] == Slots(struts, 3)
      ensures unselected == old(unselected) + (if prepareTool then selection[..ScanSelection(selection).scanned] else [])
    {
      oldBasis := new Option<Segment>[3](_ => None);
      newBasis := new Option<Segment>[3](_ => None);
      index := 0;
      correct := true;
      center := None;
      struts := [];
      var i := 0;
      while i < |selection| && correct
        invariant 0 <= i <= |selection|
        invariant ScanSelection(selection[..i]) == Scan(struts, center, correct, i)
        invariant index == |struts|
        invariant oldBasis[..] == Slots(struts, 0) && newBasis[..] == Slots(struts, 3)
        invariant unselected == old(unselected) + (if prepareTool then selection[..i] else [])
      {
        var man := selection[i];
        ScanAdvance(selection, i);
        if prepareTool {
          unselected := unselected + [man];
        }
        index, correct, center, struts := ScanOne(man, oldBasis, newBasis, index, center, struts, i);
        i := i + 1;
      }
      if correct {
        assert selection[..i] == selection;
      } else {
        StoppedScanIsFinal(selection, i);
      }
    }

    method CheckSelection(prepareTool: bool) returns (error: Option<string>)
      modifies this`unselected, this`transforms
      ensures error == Verdict(selection)
      ensures unselected == old(unselected) + (if prepareTool then selection[..ScanSelection(selection).scanned] else [])
      ensures transforms == if prepareTool && error.None? then Some([Transform(selection, originPoint, originalScaling)]) else old(transforms)
    {
      var oldBasis, newBasis, index, correct, center, struts := ScanBases(prepareTool);
      correct := correct && (index == 3 || index == 6);
      if !correct {
        return Some(LinearMapError);
      }
      if prepareTool {
        var c := if center.None? then originPoint else center.value;
        if index == 6 {
          assert struts[..3] == [struts[0], struts[1], struts[2]];
          assert struts[3..] == [struts[3], struts[4], struts[5]];
          transforms := Some([ChangeOfBasis([oldBasis[0].value, oldBasis[1].value, oldBasis[2].value],
                                            [newBasis[0].value, newBasis[1].value, newBasis[2].value], c)]);
        } else {
          transforms := Some([ChangeOfBasisScaled(oldBasis[0].value, oldBasis[1].value, oldBasis[2].value, c, originalScaling)]);
        }
      }
      return None;
    }
  }
}
