/**
 * ExportedVEFShapes.VefToShape: the callbacks that collect the vertices,
 * faces and balls of a strut or connector shape file, the extended-profile
 * tail (`tip <int>` then `middle <int>*`) read after the face list, and the
 * assembly of a connector polyhedron or of strut geometry from them.
 */
module VefShapes {
  import opened Wrappers
  import opened JavaInts
  import G = Geometry
  import P = Polyhedra
  import Q = Rationals

  /** The exceptions endFile and getStrutGeometry raise. */
  datatype VefError =
    | TokenAfterFaceList(token: string)
    | NoTokensAfterTip
    | TipNotInteger(token: string)
    | TipOutOfRange(index: int)
    | TokenAfterTip(token: string)
    | MiddleNotInteger(token: string)
    | NoTipVertex

  /** What ExportedVEFStrutGeometry is built from. */
  datatype StrutGeometry = StrutGeometry(
    vertices: seq<G.Vector>,
    faces: seq<seq<Int32>>,
    prototype: G.Vector,
    tipVertexIndices: set<Int32>,
    midpointVertexIndices: set<Int32>)

  /** The rational one half, by which the tip is scaled to the midpoint. */
  const Half: Q.Rat := Q.Fraction(1, 2)

  // ---------------------------------------------------------------------
  // The tail after the face list

  /**
   * The loop over the tokens after `middle`: each token must parse as an
   * int; the ints before the first one that does not are kept.
   */
  function ParseMiddles(tokens: seq<string>): (r: (seq<Int32>, Outcome<VefError>))
    ensures |r.0| <= |tokens|
    decreases |tokens|
  {
    if tokens == [] then ([], Pass)
    else
      match ParseInt(tokens[0])
      case None => ([], Fail(MiddleNotInteger(tokens[0])))
      case Some(v) =>
        var rest := ParseMiddles(tokens[1..]);
        ([v] + rest.0, rest.1)
  }

  /**
   * The kept ints are the values of the leading tokens; the loop succeeds
   * exactly when every token parses, and otherwise names the first that
   * does not.
   */
  lemma {:induction false} ParseMiddlesKeepsLeadingInts(tokens: seq<string>)
    ensures var r := ParseMiddles(tokens);
      (forall i :: 0 <= i < |r.0| ==> ParseInt(tokens[i]) == Some(r.0[i])) &&
      (r.1.Pass? <==> |r.0| == |tokens|) &&
      (r.1.Fail? ==> ParseInt(tokens[|r.0|]).None? && r.1.error == MiddleNotInteger(tokens[|r.0|]))
    decreases |tokens|
  {
    if tokens != [] && ParseInt(tokens[0]).Some? {
      ParseMiddlesKeepsLeadingInts(tokens[1..]);
    }
  }

  /** The state endFile leaves and whether it raised. */
  datatype EndState = EndState(tipVertex: Option<G.Vector>, midpoints: set<Int32>, outcome: Outcome<VefError>)

  function AsSet(s: seq<Int32>): set<Int32>
  {
    set x | x in s
  }

  /**
   * What follows the tip index: nothing, or `middle` and the indices to
   * add, kept up to the first token that does not parse.
   */
  function MiddleResult(rest: seq<string>, midpoints: set<Int32>): (r: (set<Int32>, Outcome<VefError>))
    ensures midpoints <= r.0
    ensures rest == [] ==> r == (midpoints, Pass)
    ensures |rest| > 0 && rest[0] != "middle" ==> r == (midpoints, Fail(TokenAfterTip(rest[0])))
    ensures |rest| > 0 && rest[0] == "middle" ==>
      r == (midpoints + AsSet(ParseMiddles(rest[1..]).0), ParseMiddles(rest[1..]).1)
  {
    if rest == [] then (midpoints, Pass)
    else if rest[0] != "middle" then (midpoints, Fail(TokenAfterTip(rest[0])))
    else
      var parsed := ParseMiddles(rest[1..]);
      (midpoints + AsSet(parsed.0), parsed.1)
  }

  /**
   * endFile: the tip is set only by a valid `tip <index>`, and the midpoint
   * indices change only after it.
   */
  function EndFileResult(tokens: seq<string>, vertices: seq<G.Vector>, tipVertex: Option<G.Vector>, midpoints: set<Int32>)
    : (r: EndState)
    ensures tokens == [] ==> r == EndState(tipVertex, midpoints, Pass)
    ensures |tokens| > 0 && tokens[0] != "tip" ==> r == EndState(tipVertex, midpoints, Fail(TokenAfterFaceList(tokens[0])))
    ensures tokens == ["tip"] ==> r == EndState(tipVertex, midpoints, Fail(NoTokensAfterTip))
    ensures |tokens| >= 2 && tokens[0] == "tip" && ParseInt(tokens[1]).None? ==>
      r == EndState(tipVertex, midpoints, Fail(TipNotInteger(tokens[1])))
    ensures |tokens| >= 2 && tokens[0] == "tip" && ParseInt(tokens[1]).Some? && !(0 <= ParseInt(tokens[1]).value < |vertices|) ==>
      r == EndState(tipVertex, midpoints, Fail(TipOutOfRange(ParseInt(tokens[1]).value)))
    ensures |tokens| >= 2 && tokens[0] == "tip" && ParseInt(tokens[1]).Some? && 0 <= ParseInt(tokens[1]).value < |vertices| ==>
      r == EndState(Some(vertices[ParseInt(tokens[1]).value]), MiddleResult(tokens[2..], midpoints).0, MiddleResult(tokens[2..], midpoints).1)
    ensures r.outcome.Pass? ==> tokens == [] || (tokens[0] == "tip" && r.tipVertex.Some?)
    ensures r.tipVertex != tipVertex || r.midpoints != midpoints ==>
      |tokens| >= 2 && tokens[0] == "tip" && ParseInt(tokens[1]).Some? &&
      0 <= ParseInt(tokens[1]).value < |vertices| && r.tipVertex == Some(vertices[ParseInt(tokens[1]).value])
    ensures midpoints <= r.midpoints
  {
    if tokens == [] then EndState(tipVertex, midpoints, Pass)
    else if tokens[0] != "tip" then EndState(tipVertex, midpoints, Fail(TokenAfterFaceList(tokens[0])))
    else if |tokens| == 1 then EndState(tipVertex, midpoints, Fail(NoTokensAfterTip))
    else match ParseInt(tokens[1])
      case None => EndState(tipVertex, midpoints, Fail(TipNotInteger(tokens[1])))
      case Some(tipIndex) =>
        if !(0 <= tipIndex < |vertices|) then EndState(tipVertex, midpoints, Fail(TipOutOfRange(tipIndex)))
        else
          var after := MiddleResult(tokens[2..], midpoints);
          EndState(Some(vertices[tipIndex]), after.0, after.1)
  }

  /** One step of the loop after `middle`: a token that parses is kept ahead of the rest. */
  lemma {:induction false} ParseMiddlesStep(tokens: seq<string>, next: nat)
    requires next < |tokens| && ParseInt(tokens[next]).Some?
    ensures ParseMiddles(tokens[next..]) ==
      ([ParseInt(tokens[next]).value] + ParseMiddles(tokens[next + 1..]).0, ParseMiddles(tokens[next + 1..]).1)
  {
    assert tokens[next..][0] == tokens[next];
    assert tokens[next..][1..] == tokens[next + 1..];
  }

  /** One more index read by endFile's `middle` loop. */
  lemma MiddleLoopAdvances(rest: seq<string>, next: nat, added: seq<Int32>)
    requires 1 <= next < |rest| && ParseInt(rest[next]).Some?
    requires ParseMiddles(rest[1..]) == (added + ParseMiddles(rest[next..]).0, ParseMiddles(rest[next..]).1)
    ensures ParseMiddles(rest[1..]) ==
      ((added + [ParseInt(rest[next]).value]) + ParseMiddles(rest[next + 1..]).0, ParseMiddles(rest[next + 1..]).1)
  {
    ParseMiddlesStep(rest, next);
    var v := ParseInt(rest[next]).value;
    assert added + ([v] + ParseMiddles(rest[next + 1..]).0) == (added + [v]) + ParseMiddles(rest[next + 1..]).0;
  }

  /** endFile's `middle` loop stops at the first token that is not an int. */
  lemma MiddleLoopFails(rest: seq<string>, next: nat, added: seq<Int32>)
    requires 1 <= next < |rest| && ParseInt(rest[next]).None?
    requires ParseMiddles(rest[1..]) == (added + ParseMiddles(rest[next..]).0, ParseMiddles(rest[next..]).1)
    ensures ParseMiddles(rest[1..]) == (added, Fail(MiddleNotInteger(rest[next])))
  {
    assert rest[next..][0] == rest[next];
    assert added + [] == added;
  }

  lemma {:induction false} AsSetAppend(s: seq<Int32>, x: Int32)
    ensures AsSet(s + [x]) == AsSet(s) + {x}
  {
    assert forall y :: y in s + [x] <==> y in s || y == x;
  }

  function FormatAll(ns: seq<Int32>): (s: seq<string>)
    ensures |s| == |ns|
  {
    seq(|ns|, i requires 0 <= i < |ns| => Format(ns[i]))
  }

  /** Formatted ints parse back, all of them. */
  lemma {:induction false} ParseMiddlesFormatted(ns: seq<Int32>)
    ensures ParseMiddles(FormatAll(ns)) == (ns, Pass)
    decreases |ns|
  {
    if ns != [] {
      ParseFormat(ns[0]);
      assert FormatAll(ns)[1..] == FormatAll(ns[1..]);
      ParseMiddlesFormatted(ns[1..]);
      assert [ns[0]] + ns[1..] == ns;
    }
  }

  /**
   * Reading back a tail written as `tip t middle m1 m2 ...` with t a
   * recorded vertex sets the tip to that vertex and adds every m.
   */
  lemma {:induction false} EndFileReadsWrittenTail(tip: Int32, middles: seq<Int32>, vertices: seq<G.Vector>,
                                                   tipVertex: Option<G.Vector>, midpoints: set<Int32>)
    requires 0 <= tip < |vertices|
    ensures EndFileResult(["tip", Format(tip), "middle"] + FormatAll(middles), vertices, tipVertex, midpoints)
         == EndState(Some(vertices[tip]), midpoints + AsSet(middles), Pass)
  {
    var tokens := ["tip", Format(tip), "middle"] + FormatAll(middles);
    ParseFormat(tip);
    assert tokens[3..] == FormatAll(middles);
    ParseMiddlesFormatted(middles);
  }

  /** A token that is not an int stops the `middle` loop after the ints before it. */
  lemma {:induction false} ParseMiddlesStopsAtBadToken(ns: seq<Int32>, bad: string, more: seq<string>)
    requires ParseInt(bad).None?
    ensures ParseMiddles(FormatAll(ns) + [bad] + more) == (ns, Fail(MiddleNotInteger(bad)))
    decreases |ns|
  {
    var tokens := FormatAll(ns) + [bad] + more;
    if ns == [] {
      assert tokens[0] == bad;
    } else {
      var rest := FormatAll(ns[1..]) + [bad] + more;
      assert FormatAll(ns) == [Format(ns[0])] + FormatAll(ns[1..]);
      assert tokens[0] == Format(ns[0]) && tokens[1..] == rest;
      ParseFormat(ns[0]);
      ParseMiddlesStopsAtBadToken(ns[1..], bad, more);
      assert ParseMiddles(tokens).0 == [ns[0]] + ns[1..] == ns;
    }
  }

  /**
   * A `middle` list broken by a token that is not an int fails naming that
   * token, with the tip set and the ints before it already added.
   */
  lemma EndFileMiddleFailureKeepsEarlier(tip: Int32, good: seq<Int32>, bad: string, more: seq<string>,
                                         vertices: seq<G.Vector>, tipVertex: Option<G.Vector>, midpoints: set<Int32>)
    requires 0 <= tip < |vertices| && ParseInt(bad).None?
    ensures EndFileResult(["tip", Format(tip), "middle"] + FormatAll(good) + [bad] + more, vertices, tipVertex, midpoints)
         == EndState(Some(vertices[tip]), midpoints + AsSet(good), Fail(MiddleNotInteger(bad)))
  {
    var tokens := ["tip", Format(tip), "middle"] + FormatAll(good) + [bad] + more;
    ParseFormat(tip);
    assert tokens[3..] == FormatAll(good) + [bad] + more;
    ParseMiddlesStopsAtBadToken(good, bad, more);
  }

  /** A tail that stops after the tip index sets only the tip. */
  lemma {:induction false} EndFileTipOnly(tip: Int32, vertices: seq<G.Vector>, tipVertex: Option<G.Vector>, midpoints: set<Int32>)
    requires 0 <= tip < |vertices|
    ensures EndFileResult(["tip", Format(tip)], vertices, tipVertex, midpoints)
         == EndState(Some(vertices[tip]), midpoints, Pass)
  {
    ParseFormat(tip);
  }

  // ---------------------------------------------------------------------
  // Strut geometry

  /**
   * One vertex of the strut geometry: ball vertices are shifted back by the
   * tip, otherwise midpoint vertices by half the tip, then every vertex is
   * multiplied by the adjustment matrix.
   */
  function StrutVertex(vertex: G.Vector, i: int, tipIndices: set<Int32>, midIndices: set<Int32>, tip: G.Vector,
                       adjustment: G.Matrix, va: G.VectorAlgebra): (r: G.Vector)
    ensures i in tipIndices ==> r == va.timesColumn(adjustment, va.minus(vertex, tip))
    ensures i !in tipIndices && i in midIndices ==> r == va.timesColumn(adjustment, va.minus(vertex, va.scale(tip, Half)))
    ensures i !in tipIndices && i !in midIndices ==> r == va.timesColumn(adjustment, vertex)
  {
    var shifted :=
      if i in tipIndices then va.minus(vertex, tip)
      else if i in midIndices then va.minus(vertex, va.scale(tip, Half))
      else vertex;
    va.timesColumn(adjustment, shifted)
  }

  /** The matrix that undoes the orientation of the tip's axis. */
  function Adjustment(tip: G.Vector, sym: G.Symmetry): G.Matrix
  {
    sym.matrix(sym.inverse(sym.axisOrientation(tip)))
  }

  /**
   * getConnectorPolyhedron's second loop: each parsed face, copied into a
   * new Face, goes through the polyhedron's addFace, stopping at the first
   * face whose normal cannot be computed.
   */
  method AddParsedFaces(result: P.Polyhedron, faces: seq<seq<Int32>>, va: G.VectorAlgebra)
    returns (outcome: Outcome<P.FaceError>)
    modifies result`faces
    ensures var r := P.AddFacesTo(old(result.faces), faces, result.vertexList, va);
      && (outcome.Pass? <==> r.Success?)
      && (outcome.Fail? ==> outcome.error == r.error)
      && (outcome.Pass? ==> Success(result.faces) == r)
  {
    ghost var start := result.faces;
    for j := 0 to |faces|
      invariant Success(result.faces) == P.AddFacesTo(start, faces[..j], result.vertexList, va)
    {
      var prototypeFace := faces[j];
      var face := new P.Face();
      face.AddAll(prototypeFace);
      assert faces[..j + 1][..j] == faces[..j] && faces[..j + 1][j] == prototypeFace;
      assert face.indices == prototypeFace;
      outcome := result.AddFace(face, va);
      if outcome.Fail? {
        P.AddFacesToFailureStops(start, faces, j + 1, result.vertexList, va);
        return;
      }
    }
    assert faces[..|faces|] == faces;
    return Pass;
  }

  // ---------------------------------------------------------------------
  // The parser's state

  class VefToShape {
    var tipVertexIndices: set<Int32>
    var midpointVertexIndices: set<Int32>
    var tipVertex: Option<G.Vector>
    var vertices: seq<G.Vector>
    var faces: seq<seq<Int32>>

    constructor ()
      ensures tipVertexIndices == {} && midpointVertexIndices == {} && tipVertex == None
      ensures vertices == [] && faces == []
    {
      tipVertexIndices := {};
      midpointVertexIndices := {};
      tipVertex := None;
      vertices := [];
      faces := [];
    }

    /** addFace: append a copy of the index array, in order. */
    method AddFace(index: int, verts: seq<Int32>)
      modifies this`faces
      ensures faces == old(faces) + [verts]
    {
      var face: seq<Int32> := [];
      for i := 0 to |verts|
        invariant face == verts[..i]
      {
        var j := verts[i];
        face := face + [j];
      }
      assert face == verts;
      faces := faces + [face];
    }

    /** addVertex: append the location projected to three dimensions. */
    method AddVertex(index: int, location: G.Vector, wFirst: bool, va: G.VectorAlgebra)
      modifies this`vertices
      ensures vertices == old(vertices) + [va.projectTo3d(location, wFirst)]
    {
      var vertex := va.projectTo3d(location, wFirst);
      vertices := vertices + [vertex];
    }

    /** addBall: record the vertex as one that tracks the strut's end. */
    method AddBall(index: int, vertex: Int32)
      modifies this`tipVertexIndices
      ensures tipVertexIndices == old(tipVertexIndices) + {vertex}
    {
      tipVertexIndices := tipVertexIndices + {vertex};
    }

    /** endFile: read the tail token by token, as the tokenizer hands them out. */
    method EndFile(tokens: seq<string>) returns (outcome: Outcome<VefError>)
      modifies this`tipVertex, this`midpointVertexIndices
      ensures EndState(tipVertex, midpointVertexIndices, outcome)
           == EndFileResult(tokens, vertices, old(tipVertex), old(midpointVertexIndices))
    {
      if |tokens| == 0 {
        return Pass;
      }
      var token := tokens[0];
      if token != "tip" {
        return Fail(TokenAfterFaceList(token));
      }
      if |tokens| < 2 {
        return Fail(NoTokensAfterTip);
      }
      token := tokens[1];
      var tipIndex := ParseInt(token);
      if tipIndex.None? {
        return Fail(TipNotInteger(token));
      }
      if !(0 <= tipIndex.value < |vertices|) {
        return Fail(TipOutOfRange(tipIndex.value));
      }
      tipVertex := Some(vertices[tipIndex.value]);
      outcome := ReadAfterTip(tokens[2..]);
    }

    /** The rest of endFile, once the tip is set: nothing, or `middle` and its indices. */
    method ReadAfterTip(rest: seq<string>) returns (outcome: Outcome<VefError>)
      modifies this`midpointVertexIndices
      ensures (midpointVertexIndices, outcome) == MiddleResult(rest, old(midpointVertexIndices))
    {
      if |rest| == 0 {
        return Pass;
      }
      var token := rest[0];
      if token != "middle" {
        return Fail(TokenAfterTip(token));
      }
      var next := 1;
      ghost var added: seq<Int32> := [];
      assert added + ParseMiddles(rest[next..]).0 == ParseMiddles(rest[1..]).0;
      while next < |rest|
        invariant 1 <= next <= |rest|
        invariant ParseMiddles(rest[1..]) == (added + ParseMiddles(rest[next..]).0, ParseMiddles(rest[next..]).1)
        invariant midpointVertexIndices == old(midpointVertexIndices) + AsSet(added)
        decreases |rest| - next
      {
        token := rest[next];
        var vertexIndex := ParseInt(token);
        if vertexIndex.None? {
          MiddleLoopFails(rest, next, added);
          return Fail(MiddleNotInteger(token));
        }
        MiddleLoopAdvances(rest, next, added);
        AsSetAppend(added, vertexIndex.value);
        midpointVertexIndices := midpointVertexIndices + {vertexIndex.value};
        added := added + [vertexIndex.value];
        next := next + 1;
      }
      assert rest[next..] == [];
      assert added + [] == added;
      return Pass;
    }

    /**
     * getConnectorPolyhedron: a new polyhedron holding the parsed vertices
     * in order, with every parsed face passed through addFace.
     */
    method GetConnectorPolyhedron(field: P.AN.Field, va: G.VectorAlgebra)
      returns (r: Result<P.Polyhedron, P.FaceError>)
      ensures r.Success? <==> P.AddFacesTo(map[], faces, vertices, va).Success?
      ensures r.Failure? ==> r.error == P.AddFacesTo(map[], faces, vertices, va).error
      ensures r.Success? ==>
        fresh(r.value) && r.value.field == field && r.value.numVertices == 0 && r.value.vertices == map[] &&
        r.value.vertexList == vertices &&
        Success(r.value.faces) == P.AddFacesTo(map[], faces, vertices, va)
    {
      var result := new P.Polyhedron(field);
      for i := 0 to |vertices|
        invariant fresh(result) && result.numVertices == 0 && result.vertices == map[]
        invariant result.vertexList == vertices[..i] && result.faces == map[]
      {
        var vertex := vertices[i];
        result.AddVertex(vertex);
      }
      assert vertices[..|vertices|] == vertices;
      var outcome := AddParsedFaces(result, faces, va);
      if outcome.Fail? {
        return Failure(outcome.error);
      }
      return Success(result);
    }

    /**
     * getStrutGeometry: every vertex shifted by the tip or the midpoint and
     * then adjusted, with the faces and index sets passed on as they are.
     */
    method GetStrutGeometry(prototype: G.Vector, sym: G.Symmetry, va: G.VectorAlgebra) returns (r: Result<StrutGeometry, VefError>)
      ensures tipVertex.None? <==> r.Failure?
      ensures r.Failure? ==> r.error == NoTipVertex
      ensures r.Success? ==>
        |r.value.vertices| == |vertices| &&
        (forall i :: 0 <= i < |vertices| ==>
          r.value.vertices[i] == StrutVertex(vertices[i], i, tipVertexIndices, midpointVertexIndices,
                                             tipVertex.value, Adjustment(tipVertex.value, sym), va)) &&
        r.value.faces == faces && r.value.prototype == prototype &&
        r.value.tipVertexIndices == tipVertexIndices && r.value.midpointVertexIndices == midpointVertexIndices
    {
      if tipVertex.None? {
        return Failure(NoTipVertex);
      }
      var tip := tipVertex.value;
      var orientationOfTip := sym.axisOrientation(tip);
      var midpoint := va.scale(tip, Half);
      var orientation := sym.inverse(orientationOfTip);
      var adjustment := sym.matrix(orientation);
      var newVertices: seq<G.Vector> := [];
      for i := 0 to |vertices|
        invariant |newVertices| == i
        invariant forall k :: 0 <= k < i ==>
          newVertices[k] == StrutVertex(vertices[k], k, tipVertexIndices, midpointVertexIndices, tip, adjustment, va)
      {
        var originalVertex := vertices[i];
        if i in tipVertexIndices {
          originalVertex := va.minus(originalVertex, tip);
        } else if i in midpointVertexIndices {
          originalVertex := va.minus(originalVertex, midpoint);
        }
        var adjustedVertex := va.timesColumn(adjustment, originalVertex);
        newVertices := newVertices + [adjustedVertex];
      }
      return Success(StrutGeometry(newVertices, faces, prototype, tipVertexIndices, midpointVertexIndices));
    }
  }

}
