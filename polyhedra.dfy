/**
 * Polyhedron: a mesh builder with an append-only vertex list, a separate
 * deduplicating vertex index, and a set of faces.  A Face is a list of
 * vertex indices that is rotated in place to a canonical order before it is
 * stored, so that faces equal up to rotation are stored once.
 */
module Polyhedra {
  import opened Wrappers
  import opened JavaInts
  import G = Geometry
  import AN = AlgebraicNumbers
  import Q = Rationals

  /** getVertex's IllegalStateException and List.get's IndexOutOfBoundsException. */
  datatype FaceError = IndexLargerThanFaceSize | IndexOutOfBounds(index: int)

  // ---------------------------------------------------------------------
  // Reading a face

  /** Face.getVertex: an index at or past the end is refused with its own error. */
  function VertexAt(indices: seq<Int32>, index: int): (r: Result<Int32, FaceError>)
    ensures r.Success? <==> 0 <= index < |indices|
    ensures index >= |indices| ==> r == Failure(IndexLargerThanFaceSize)
    ensures r.Success? ==> r.value == indices[index]
  {
    if index >= |indices| then Failure(IndexLargerThanFaceSize)
    else if index < 0 then Failure(IndexOutOfBounds(index))
    else Success(indices[index])
  }

  /** List.get on the vertex list. */
  function VertexOf(vertexList: seq<G.Vector>, index: int): (r: Result<G.Vector, FaceError>)
    ensures r.Success? <==> 0 <= index < |vertexList|
    ensures r.Success? ==> r.value == vertexList[index]
  {
    if 0 <= index < |vertexList| then Success(vertexList[index]) else Failure(IndexOutOfBounds(index))
  }

  /** The location of the vertex at position k of the face, as computeNormal looks it up. */
  function CornerOf(indices: seq<Int32>, k: nat, vertexList: seq<G.Vector>): Result<G.Vector, FaceError>
  {
    match VertexAt(indices, k)
    case Failure(e) => Failure(e)
    case Success(i) => VertexOf(vertexList, i)
  }

  predicate ValidCorners(indices: seq<Int32>, vertexList: seq<G.Vector>)
  {
    |indices| >= 3 &&
    0 <= indices[0] < |vertexList| && 0 <= indices[1] < |vertexList| && 0 <= indices[2] < |vertexList|
  }

  /**
   * computeNormal: the cross product of the edges from the first corner to
   * the second and third; it fails for a face of fewer than three indices or
   * a corner that is not in the vertex list.
   */
  function Normal(indices: seq<Int32>, vertexList: seq<G.Vector>, va: G.VectorAlgebra): (r: Result<G.Vector, FaceError>)
    ensures r.Success? <==> ValidCorners(indices, vertexList)
    ensures r.Success? ==>
      var v0, v1, v2 := vertexList[indices[0]], vertexList[indices[1]], vertexList[indices[2]];
      r.value == va.cross(va.minus(v1, v0), va.minus(v2, v0))
  {
    match CornerOf(indices, 0, vertexList)
    case Failure(e) => Failure(e)
    case Success(v0) =>
      match CornerOf(indices, 1, vertexList)
      case Failure(e) => Failure(e)
      case Success(v1) =>
        match CornerOf(indices, 2, vertexList)
        case Failure(e) => Failure(e)
        case Success(v2) => Success(va.cross(va.minus(v1, v0), va.minus(v2, v0)))
  }

  // ---------------------------------------------------------------------
  // Canonical order

  /** m is the last position of the minimum of s. */
  predicate IsLastMin(s: seq<Int32>, m: int)
  {
    0 <= m < |s| &&
    (forall k :: 0 <= k < |s| ==> s[m] <= s[k]) &&
    (forall k :: m < k < |s| ==> s[m] < s[k])
  }

  /** The position the `<=` scan of canonicallyOrder settles on. */
  function LastMin(s: seq<Int32>): (m: nat)
    requires |s| > 0
    ensures IsLastMin(s, m)
    decreases |s|
  {
    if |s| == 1 then 0
    else
      var m := LastMin(s[..|s| - 1]);
      assert forall k :: 0 <= k < |s| - 1 ==> s[..|s| - 1][k] == s[k];
      if s[|s| - 1] <= s[m] then |s| - 1 else m
  }

  lemma {:induction false} LastMinUnique(s: seq<Int32>, m: int, m': int)
    requires IsLastMin(s, m) && IsLastMin(s, m')
    ensures m == m'
  {
    assert s[m] <= s[m'] && s[m'] <= s[m];
  }

  /** s read cyclically from position r, as the temporary array is filled. */
  function Rotate(s: seq<Int32>, r: nat): (t: seq<Int32>)
    ensures |t| == |s|
  {
    seq(|s|, j requires 0 <= j < |s| => s[(j + r) % |s|])
  }

  /** The order canonicallyOrder leaves: s rotated to start at its last minimum. */
  function Canonical(s: seq<Int32>): (c: seq<Int32>)
    ensures |c| == |s|
  {
    if |s| == 0 then s else Rotate(s, LastMin(s))
  }

  predicate Distinct(s: seq<Int32>)
  {
    forall i, j :: 0 <= i < j < |s| ==> s[i] != s[j]
  }

  lemma {:induction false} ModSmall(x: int, n: int)
    requires n > 0 && 0 <= x < 2 * n
    ensures x % n == if x < n then x else x - n
  {
    if x < n {
      Q.DivModUnique(x, n, 0, x);
    } else {
      Q.DivModUnique(x, n, 1, x - n);
    }
  }

  /** A rotation is the tail from r followed by the head before r. */
  lemma {:induction false} RotateSplit(s: seq<Int32>, r: nat)
    requires r < |s|
    ensures Rotate(s, r) == s[r..] + s[..r]
  {
    var t, u := Rotate(s, r), s[r..] + s[..r];
    forall k | 0 <= k < |s|
      ensures t[k] == u[k]
    {
      ModSmall(k + r, |s|);
    }
  }

  /** Rotating by a and then by b is rotating by a + b. */
  lemma {:induction false} RotateRotate(s: seq<Int32>, a: nat, b: nat)
    requires a < |s| && b < |s|
    ensures Rotate(Rotate(s, a), b) == Rotate(s, (a + b) % |s|)
  {
    var n := |s|;
    ModSmall(a + b, n);
    forall k | 0 <= k < n
      ensures Rotate(Rotate(s, a), b)[k] == Rotate(s, (a + b) % n)[k]
    {
      ModSmall(k + b, n);
      ModSmall((k + b) % n + a, n);
      ModSmall(k + (a + b) % n, n);
    }
  }

  lemma {:induction false} RotateDistinct(s: seq<Int32>, r: nat)
    requires Distinct(s) && r < |s|
    ensures Distinct(Rotate(s, r))
  {
    var t := Rotate(s, r);
    forall i, j | 0 <= i < j < |s|
      ensures t[i] != t[j]
    {
      ModSmall(i + r, |s|);
      ModSmall(j + r, |s|);
    }
  }

  /**
   * canonicallyOrder leaves a rotation of the face, of the same length and
   * with the same indices, starting at the last occurrence of its minimum.
   */
  lemma {:induction false} CanonicalIsRotationToLastMin(s: seq<Int32>)
    requires |s| > 0
    ensures exists m :: IsLastMin(s, m) && Canonical(s) == Rotate(s, m)
    ensures multiset(Canonical(s)) == multiset(s)
    ensures forall k :: 0 <= k < |s| ==> Canonical(s)[0] <= s[k]
  {
    var m := LastMin(s);
    RotateSplit(s, m);
    assert s == s[..m] + s[m..];
    ModSmall(m, |s|);
  }

  /**
   * For a face with distinct indices every rotation canonicalises to the
   * same sequence, so rotated copies of a face are equal once canonical.
   */
  lemma {:induction false} CanonicalRotationInvariant(s: seq<Int32>, r: nat)
    requires Distinct(s) && r < |s|
    ensures Canonical(Rotate(s, r)) == Canonical(s)
  {
    var n := |s|;
    var t := Rotate(s, r);
    var m := LastMin(s);
    var m' := (m + n - r) % n;
    ModSmall(m + n - r, n);
    ModSmall(m' + r, n);
    assert (m' + r) % n == m;
    RotateDistinct(s, r);
    assert IsLastMin(t, m') by {
      forall k | 0 <= k < n
        ensures t[m'] <= t[k]
      {
        ModSmall(k + r, n);
      }
      forall k | m' < k < n
        ensures t[m'] < t[k]
      {
        assert t[m'] != t[k];
        ModSmall(k + r, n);
      }
    }
    LastMinUnique(t, m', LastMin(t));
    RotateRotate(s, r, m');
    assert (r + m') % n == m;
  }

  /** For a face with distinct indices, canonicallyOrder is idempotent. */
  lemma {:induction false} CanonicalIdempotent(s: seq<Int32>)
    requires Distinct(s)
    ensures Canonical(Canonical(s)) == Canonical(s)
  {
    if |s| > 0 {
      CanonicalRotationInvariant(s, LastMin(s));
    }
  }

  /**
   * With a repeated minimum neither property holds: [0, 0, 1, 1] and its
   * rotation [0, 1, 1, 0] canonicalise to each other.
   */
  lemma CanonicalTies()
    ensures Canonical([0, 0, 1, 1]) == [0, 1, 1, 0]
    ensures Canonical([0, 1, 1, 0]) == [0, 0, 1, 1]
    ensures Rotate([0, 0, 1, 1], 1) == [0, 1, 1, 0]
  {
    CanonicalOfSortedTie();
    CanonicalOfRotatedTie();
  }

  lemma CanonicalOfSortedTie()
    ensures Canonical([0, 0, 1, 1]) == [0, 1, 1, 0]
    ensures Rotate([0, 0, 1, 1], 1) == [0, 1, 1, 0]
  {
    var s: seq<Int32> := [0, 0, 1, 1];
    LastMinUnique(s, 1, LastMin(s));
    assert Rotate(s, 1) == [0, 1, 1, 0] by {
      assert (0 + 1) % 4 == 1 && (1 + 1) % 4 == 2 && (2 + 1) % 4 == 3 && (3 + 1) % 4 == 0;
    }
  }

  lemma CanonicalOfRotatedTie()
    ensures Canonical([0, 1, 1, 0]) == [0, 0, 1, 1]
  {
    var t: seq<Int32> := [0, 1, 1, 0];
    LastMinUnique(t, 3, LastMin(t));
    assert Rotate(t, 3) == [0, 0, 1, 1] by {
      assert (0 + 3) % 4 == 3 && (1 + 3) % 4 == 0 && (2 + 3) % 4 == 1 && (3 + 3) % 4 == 2;
    }
  }

  // ---------------------------------------------------------------------
  // Face hash

  function Sum(s: seq<Int32>): int
    decreases |s|
  {
    if s == [] then 0 else Sum(s[..|s| - 1]) + s[|s| - 1]
  }

  /** Face.hashCode: the sum of the indices in Java int arithmetic. */
  function HashOf(s: seq<Int32>): (h: Int32)
    ensures (Sum(s) - h) % Modulus == 0
  {
    Wrap(Sum(s))
  }

  lemma {:induction false} SumAppend(a: seq<Int32>, b: seq<Int32>)
    ensures Sum(a + b) == Sum(a) + Sum(b)
    decreases |b|
  {
    if b == [] {
      assert a + b == a;
    } else {
      assert (a + b)[..|a + b| - 1] == a + b[..|b| - 1];
      assert (a + b)[|a + b| - 1] == b[|b| - 1];
      SumAppend(a, b[..|b| - 1]);
    }
  }

  /** canonicallyOrder does not change a face's hashCode. */
  lemma CanonicalKeepsHash(s: seq<Int32>)
    ensures HashOf(Canonical(s)) == HashOf(s)
  {
    CanonicalKeepsSum(s);
  }

  /** The rotation canonicallyOrder applies keeps the exact sum of the indices. */
  lemma {:induction false} CanonicalKeepsSum(s: seq<Int32>)
    ensures Sum(Canonical(s)) == Sum(s)
  {
    if |s| > 0 {
      var m := LastMin(s);
      RotateSplit(s, m);
      SumAppend(s[m..], s[..m]);
      SumAppend(s[..m], s[m..]);
      assert s == s[..m] + s[m..];
    }
  }

  // ---------------------------------------------------------------------
  // The face set

  /**
   * addFace on the face set, keyed by the canonical index list (the face's
   * equals) and holding the normal of the face that was stored.
   */
  function AddFaceTo(faces: map<seq<Int32>, G.Vector>, indices: seq<Int32>, vertexList: seq<G.Vector>, va: G.VectorAlgebra)
    : (r: Result<map<seq<Int32>, G.Vector>, FaceError>)
    ensures r.Success? <==> ValidCorners(indices, vertexList)
    ensures r.Success? ==> r.value.Keys == faces.Keys + {Canonical(indices)}
    ensures r.Success? ==> forall f :: f in faces ==> r.value[f] == faces[f]
    ensures r.Success? && Canonical(indices) !in faces ==> r.value[Canonical(indices)] == Normal(indices, vertexList, va).value
  {
    match Normal(indices, vertexList, va)
    case Failure(e) => Failure(e)
    case Success(n) =>
      var c := Canonical(indices);
      if c in faces then Success(faces) else Success(faces[c := n])
  }

  /** addFace grows the face set by at most one face. */
  lemma {:induction false} AddFaceGrowsByAtMostOne(faces: map<seq<Int32>, G.Vector>, indices: seq<Int32>, vertexList: seq<G.Vector>, va: G.VectorAlgebra)
    requires AddFaceTo(faces, indices, vertexList, va).Success?
    ensures var r := AddFaceTo(faces, indices, vertexList, va).value;
      |r.Keys| <= |faces.Keys| + 1 && (|r.Keys| == |faces.Keys| + 1 <==> Canonical(indices) !in faces)
  {
    var c := Canonical(indices);
    if c !in faces {
      assert faces.Keys + {c} == faces.Keys + {c};
      assert |faces.Keys + {c}| == |faces.Keys| + 1;
    } else {
      assert faces.Keys + {c} == faces.Keys;
    }
  }

  /**
   * Adding a face whose indices are a rotation of a stored face with
   * distinct indices leaves the face set as it is.
   */
  lemma {:induction false} AddRotatedFaceIsNoChange(faces: map<seq<Int32>, G.Vector>, indices: seq<Int32>, r: nat,
                                                    vertexList: seq<G.Vector>, va: G.VectorAlgebra)
    requires Distinct(indices) && r < |indices|
    requires Canonical(indices) in faces
    requires ValidCorners(Rotate(indices, r), vertexList)
    ensures AddFaceTo(faces, Rotate(indices, r), vertexList, va) == Success(faces)
  {
    CanonicalRotationInvariant(indices, r);
  }

  /** addFace over a list of faces, in order, stopping at the first failure. */
  function AddFacesTo(faces: map<seq<Int32>, G.Vector>, faceList: seq<seq<Int32>>, vertexList: seq<G.Vector>, va: G.VectorAlgebra)
    : (r: Result<map<seq<Int32>, G.Vector>, FaceError>)
    decreases |faceList|
  {
    if faceList == [] then Success(faces)
    else
      match AddFacesTo(faces, faceList[..|faceList| - 1], vertexList, va)
      case Failure(e) => Failure(e)
      case Success(m) => AddFaceTo(m, faceList[|faceList| - 1], vertexList, va)
  }

  /** The canonical forms of a list of faces. */
  function CanonicalForms(faceList: seq<seq<Int32>>): set<seq<Int32>>
    decreases |faceList|
  {
    if faceList == [] then {} else CanonicalForms(faceList[..|faceList| - 1]) + {Canonical(faceList[|faceList| - 1])}
  }

  /** A canonical form is stored exactly when some face of the list has it. */
  lemma {:induction false} CanonicalFormsMembers(faceList: seq<seq<Int32>>, f: seq<Int32>)
    ensures f in CanonicalForms(faceList) <==> exists j :: 0 <= j < |faceList| && f == Canonical(faceList[j])
    decreases |faceList|
  {
    if faceList != [] {
      var n := |faceList| - 1;
      var init := faceList[..n];
      CanonicalFormsMembers(init, f);
      if f in CanonicalForms(faceList) {
        if f in CanonicalForms(init) {
          var j :| 0 <= j < |init| && f == Canonical(init[j]);
          assert faceList[j] == init[j];
        } else {
          assert f == Canonical(faceList[n]);
        }
      }
      if exists j :: 0 <= j < |faceList| && f == Canonical(faceList[j]) {
        var j :| 0 <= j < |faceList| && f == Canonical(faceList[j]);
        if j < n {
          assert init[j] == faceList[j];
        }
      }
    }
  }

  /** A face listed again in a rotated order adds no canonical form. */
  lemma {:induction false} RotatedDuplicateAddsNoForm(faceList: seq<seq<Int32>>, f: seq<Int32>, r: nat)
    requires f in faceList && Distinct(f) && r < |f|
    ensures CanonicalForms(faceList + [Rotate(f, r)]) == CanonicalForms(faceList)
  {
    CanonicalRotationInvariant(f, r);
    var j :| 0 <= j < |faceList| && faceList[j] == f;
    CanonicalFormsMembers(faceList, Canonical(f));
    assert (faceList + [Rotate(f, r)])[..|faceList|] == faceList;
  }

  /**
   * Adding a list of faces succeeds exactly when every face has three
   * valid corners, and then stores exactly the canonical forms of the faces.
   */
  lemma {:induction false} AddFacesToStoresCanonicalForms(faces: map<seq<Int32>, G.Vector>, faceList: seq<seq<Int32>>,
                                                          vertexList: seq<G.Vector>, va: G.VectorAlgebra)
    ensures AddFacesTo(faces, faceList, vertexList, va).Success? <==>
      forall j :: 0 <= j < |faceList| ==> ValidCorners(faceList[j], vertexList)
    ensures AddFacesTo(faces, faceList, vertexList, va).Success? ==>
      AddFacesTo(faces, faceList, vertexList, va).value.Keys == faces.Keys + CanonicalForms(faceList)
    decreases |faceList|
  {
    if faceList != [] {
      var init, last := faceList[..|faceList| - 1], faceList[|faceList| - 1];
      AddFacesToStoresCanonicalForms(faces, init, vertexList, va);
      assert forall j :: 0 <= j < |init| ==> init[j] == faceList[j];
      assert (forall j :: 0 <= j < |faceList| ==> ValidCorners(faceList[j], vertexList)) <==>
        (forall j :: 0 <= j < |init| ==> ValidCorners(init[j], vertexList)) && ValidCorners(last, vertexList);
      var prev := AddFacesTo(faces, init, vertexList, va);
      if prev.Success? {
        assert AddFacesTo(faces, faceList, vertexList, va) == AddFaceTo(prev.value, last, vertexList, va);
      }
    }
  }

  /** Adding faces in order never drops a stored face or replaces its normal. */
  lemma {:induction false} AddFacesToKeepsStoredFaces(faces: map<seq<Int32>, G.Vector>, faceList: seq<seq<Int32>>,
                                                      vertexList: seq<G.Vector>, va: G.VectorAlgebra)
    ensures var r := AddFacesTo(faces, faceList, vertexList, va);
      r.Success? ==> faces.Keys <= r.value.Keys && forall f :: f in faces ==> r.value[f] == faces[f]
    decreases |faceList|
  {
    if faceList != [] {
      AddFacesToKeepsStoredFaces(faces, faceList[..|faceList| - 1], vertexList, va);
    }
  }

  /**
   * The first loop of canonicallyOrder: the last position holding a value
   * at most every earlier minimum, or -1 for an empty face.
   */
  method LastMinScan(s: seq<Int32>) returns (minIndex: int)
    ensures |s| == 0 ==> minIndex == -1
    ensures |s| > 0 ==> minIndex == LastMin(s)
  {
    minIndex := -1;
    var minVertex: Int32 := MaxInt;
    for i := 0 to |s|
      invariant i == 0 ==> minIndex == -1 && minVertex == MaxInt
      invariant i > 0 ==> minIndex == LastMin(s[..i]) && minVertex == s[minIndex]
    {
      var v := s[i];
      ghost var prefix := s[..i + 1];
      assert prefix[..i] == s[..i] && prefix[i] == v;
      assert forall k :: 0 <= k <= i ==> prefix[k] == s[k];
      assert i > 0 ==> LastMin(prefix) == if v <= minVertex then i else minIndex;
      if v <= minVertex {
        minVertex := v;
        minIndex := i;
      }
      assert minIndex == LastMin(prefix);
    }
    assert |s| > 0 ==> s[..|s|] == s;
  }

  /** The second loop of canonicallyOrder: the rotation, in a fresh temporary array. */
  method RotatedCopy(s: seq<Int32>, minIndex: int) returns (temp: array<Int32>)
    requires |s| == 0 || 0 <= minIndex < |s|
    ensures fresh(temp)
    ensures |s| == 0 ==> temp[..] == []
    ensures |s| > 0 ==> temp[..] == Rotate(s, minIndex)
  {
    var sz := |s|;
    temp := new Int32[sz];
    for j := 0 to sz
      invariant forall k :: 0 <= k < j ==> temp[k] == s[(k + minIndex) % sz]
    {
      temp[j] := s[(j + minIndex) % sz];
    }
  }

  /** Once adding a prefix of the list fails, adding the whole list fails the same way. */
  lemma {:induction false} AddFacesToFailureStops(faces: map<seq<Int32>, G.Vector>, faceList: seq<seq<Int32>>, k: nat,
                                                  vertexList: seq<G.Vector>, va: G.VectorAlgebra)
    requires k <= |faceList|
    requires AddFacesTo(faces, faceList[..k], vertexList, va).Failure?
    ensures AddFacesTo(faces, faceList, vertexList, va) == AddFacesTo(faces, faceList[..k], vertexList, va)
    decreases |faceList|
  {
    if k < |faceList| {
      var init := faceList[..|faceList| - 1];
      assert init[..k] == faceList[..k];
      AddFacesToFailureStops(faces, init, k, vertexList, va);
    } else {
      assert faceList[..k] == faceList;
    }
  }

  // ---------------------------------------------------------------------
  // The mutable objects

  /** Polyhedron.Face: an ArrayList of vertex indices with its normal. */
  class Face {
    var indices: seq<Int32>
    var normal: Option<G.Vector>

    constructor ()
      ensures indices == [] && normal == None
    {
      indices := [];
      normal := None;
    }

    /** ArrayList.addAll. */
    method AddAll(list: seq<Int32>)
      modifies this`indices
      ensures indices == old(indices) + list
    {
      indices := indices + list;
    }

    /**
     * computeNormal: sets the normal when the first three corners exist;
     * otherwise fails before changing anything.
     */
    method ComputeNormal(vertices: seq<G.Vector>, va: G.VectorAlgebra) returns (outcome: Outcome<FaceError>)
      modifies this`normal
      ensures Normal(indices, vertices, va).Failure? ==>
        outcome == Fail(Normal(indices, vertices, va).error) && normal == old(normal)
      ensures Normal(indices, vertices, va).Success? ==>
        outcome == Pass && normal == Some(Normal(indices, vertices, va).value)
    {
      var c0 := CornerOf(indices, 0, vertices);
      if c0.Failure? {
        return Fail(c0.error);
      }
      var c1 := CornerOf(indices, 1, vertices);
      if c1.Failure? {
        return Fail(c1.error);
      }
      var c2 := CornerOf(indices, 2, vertices);
      if c2.Failure? {
        return Fail(c2.error);
      }
      var v0, v1, v2 := c0.value, c1.value, c2.value;
      v1 := va.minus(v1, v0);
      v2 := va.minus(v2, v0);
      normal := Some(va.cross(v1, v2));
      return Pass;
    }

    /**
     * canonicallyOrder: find the last minimum with a `<=` scan, copy the
     * rotation into a temporary array, and write it back index by index.
     */
    method CanonicallyOrder()
      modifies this`indices
      ensures indices == Canonical(old(indices))
    {
      var sz := |indices|;
      var minIndex := LastMinScan(indices);
      var temp := RotatedCopy(indices, minIndex);
      ghost var rotated := temp[..];
      assert rotated == Canonical(indices);
      for k := 0 to sz
        invariant |indices| == sz && temp[..] == rotated
        invariant forall p :: 0 <= p < k ==> indices[p] == temp[p]
      {
        indices := indices[k := temp[k]];
      }
      assert indices == rotated;
    }

    /** hashCode: the running int sum of the indices. */
    method HashCode() returns (tot: Int32)
      ensures tot == HashOf(indices)
    {
      tot := 0;
      for i := 0 to |indices|
        invariant tot == Wrap(Sum(indices[..i]))
      {
        assert indices[..i + 1][..i] == indices[..i];
        WrapAdd(Sum(indices[..i]), indices[i]);
        tot := Wrap(tot + indices[i]);
      }
      assert indices[..|indices|] == indices;
    }

    /** equals: the same indices in the same positions. */
    method Equals(other: Face?) returns (equal: bool)
      ensures equal <==> other != null && other.indices == indices
    {
      if other == null {
        return false;
      }
      if other == this {
        return true;
      }
      if |other.indices| != |indices| {
        return false;
      }
      for i := 0 to |indices|
        invariant indices[..i] == other.indices[..i]
      {
        if indices[i] != other.indices[i] {
          return false;
        }
      }
      assert indices == indices[..|indices|];
      assert other.indices == other.indices[..|indices|];
      return true;
    }
  }

  /**
   * Faces that are equal once put in canonical order (as the face set
   * compares them) have equal hash codes, whichever rotation either was in.
   */
  lemma EqualFacesHashEqually(a: seq<Int32>, b: seq<Int32>)
    requires Canonical(a) == Canonical(b)
    ensures HashOf(a) == HashOf(b)
  {
    CanonicalKeepsHash(a);
    CanonicalKeepsHash(b);
  }

  /** Polyhedron: vertex list, vertex index, and face set. */
  class Polyhedron {
    const field: AN.Field
    var numVertices: int
    var vertices: map<G.Vector, int>
    var vertexList: seq<G.Vector>
    var faces: map<seq<Int32>, G.Vector>

    /**
     * What holds when vertices are added only through addIndexedVertex:
     * the counter is the list length and the index maps each listed
     * location to its position.
     */
    ghost predicate IndexedOnly()
      reads this
    {
      numVertices == |vertexList| &&
      (forall v :: v in vertices ==> 0 <= vertices[v] < |vertexList| && vertexList[vertices[v]] == v) &&
      (forall i :: 0 <= i < |vertexList| ==> vertexList[i] in vertices && vertices[vertexList[i]] == i)
    }

    constructor (field: AN.Field)
      ensures this.field == field
      ensures numVertices == 0 && vertices == map[] && vertexList == [] && faces == map[]
      ensures IndexedOnly()
    {
      this.field := field;
      numVertices := 0;
      vertices := map[];
      vertexList := [];
      faces := map[];
    }

    /** addVertex: append the location; index, counter and faces are untouched. */
    method AddVertex(location: G.Vector)
      modifies this`vertexList
      ensures vertexList == old(vertexList) + [location]
    {
      vertexList := vertexList + [location];
    }

    /**
     * addIndexedVertex: the recorded index of a known location, or else
     * append it and record the counter's old value as its index.
     */
    method AddIndexedVertex(location: G.Vector) returns (index: int)
      modifies this`vertexList, this`vertices, this`numVertices
      ensures location in old(vertices) ==>
        index == old(vertices)[location] &&
        vertexList == old(vertexList) && vertices == old(vertices) && numVertices == old(numVertices)
      ensures location !in old(vertices) ==>
        index == old(numVertices) &&
        vertexList == old(vertexList) + [location] &&
        vertices == old(vertices)[location := old(numVertices)] &&
        numVertices == old(numVertices) + 1
      ensures old(IndexedOnly()) ==> IndexedOnly() && 0 <= index < |vertexList| && vertexList[index] == location
    {
      if location in vertices {
        index := vertices[location];
      } else {
        vertexList := vertexList + [location];
        index := numVertices;
        vertices := vertices[location := index];
        numVertices := numVertices + 1;
      }
    }

    /**
     * addFace: compute the face's normal (which fails for a face without
     * three valid corners, before anything else changes), rotate the face to
     * canonical order, and store it unless an equal face is stored.
     */
    method AddFace(face: Face, va: G.VectorAlgebra) returns (outcome: Outcome<FaceError>)
      modifies face, this`faces
      ensures outcome.Fail? <==> !ValidCorners(old(face.indices), vertexList)
      ensures outcome.Fail? ==>
        outcome.error == Normal(old(face.indices), vertexList, va).error &&
        faces == old(faces) && face.indices == old(face.indices) && face.normal == old(face.normal)
      ensures outcome.Pass? ==>
        face.normal == Some(Normal(old(face.indices), vertexList, va).value) &&
        face.indices == Canonical(old(face.indices)) &&
        Success(faces) == AddFaceTo(old(faces), old(face.indices), vertexList, va)
    {
      outcome := face.ComputeNormal(vertexList, va);
      if outcome.Fail? {
        return;
      }
      face.CanonicallyOrder();
      if face.indices !in faces {
        faces := faces[face.indices := face.normal.value];
      }
    }
  }
}
