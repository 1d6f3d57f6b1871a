# vZome core: algebraic numbers, polyhedra, VEF shapes and two transformation tools

This Dafny project models five parts of the vZome geometry core and proves
properties of them.

- **AlgebraicNumber** (`algebraic_numbers.dfy`, `algebraic_number_loops.dfy`).
  An element of an algebraic field is a field plus one rational coefficient
  per basis element. The model covers construction with zero padding and the
  too-many-coordinates error, and coefficientwise `plus`, `negate` and
  `minus`. `times` and `dividedBy` are modelled as far as their shortcut
  branches. It also covers `isZero`, `isOne`, the lcm-of-denominators
  `getDivisor`, `equals`, and the lexicographic `compareTo`/`compare`.
  `algebraic_numbers.dfy` states each operation as a function. The Java loops
  become methods in `algebraic_number_loops.dfy`, each proved equal to its
  function.
- **Rationals** (`rationals.dfy`). A BigRational is modelled as a reduced
  fraction with a positive denominator. The file also holds the gcd/lcm facts
  behind `getDivisor`. BigRational's source is not part of this model, so
  only the meaning the core relies on is given: sums, negation, sign
  comparison, and zero and one tests.
- **Polyhedron** (`polyhedra.dfy`). The `Polyhedron` class holds the vertex
  list, the location-to-index map with its counter, and the face set. A face
  set is a map from a face's canonical index sequence to the normal of the
  face stored under it. That is how a `HashSet<Face>` behaves when it finds
  faces through `equals`/`hashCode` after `canonicallyOrder`. `Face` is a
  class with `getVertex`, `computeNormal`, `canonicallyOrder`, `hashCode` and
  `equals`.
- **VEF strut and connector shapes** (`vef_shapes.dfy`). This is the
  `VefToShape` handler of `ExportedVEFShapes`. It covers:
  - the accumulators `addFace`, `addVertex` and `addBall`;
  - the trailing `tip n [middle m ...]` grammar read by `endFile`;
  - `getConnectorPolyhedron` and `getStrutGeometry`.
- **Linear-map and scaling tools** (`selections.dfy`, `linear_map_tool.dfy`,
  `scaling_tool.dfy`). This is the `checkSelection` of each tool, with its
  early-breaking scan over the selection. It also covers the `transforms`
  field the scan assigns and the order in which manifestations are
  unselected, plus `LinearMapTool.equals`.

`java_ints.dfy` models Java's `int`: its wrap-around, which Face.hashCode's
running sum uses, and `Integer.parseInt` on ASCII digits, which `endFile`
uses. `geometry.dfy` holds the vector, matrix and symmetry collaborators.
Their arithmetic is defined outside the core, so each one is a function value
that the model never looks inside. The same goes for the field's `multiply`,
`reciprocal` and `zero` (`AlgebraicNumbers.FieldArithmetic`).

Where the Java changes state, the model uses classes with `modifies` clauses
(`Face`, `Polyhedron`, `VefToShape`, `LinearMapTool`, `ScalingTool`). Each
method is proved against a specification function, and the lemmas are
stated about that function. Some Java methods have several loops. These are
split into a main method and helper methods with their own contracts:
- `canonicallyOrder` becomes `CanonicallyOrder`, `LastMinScan` and `RotatedCopy`;
- `endFile` becomes `EndFile` and `ReadAfterTip`;
- `getConnectorPolyhedron` becomes `GetConnectorPolyhedron` and `AddParsedFaces`;
- each `checkSelection` becomes `CheckSelection` plus `ScanBases` or `ScanStruts`; the body of the linear-map loop is `ScanOne`.

Where the code's evident intent and its text disagree, the text is
followed. `isOne` is meant to hold exactly when coefficient 0 is one and the
other coefficients are zero: its name and its two scans say so, and `times`
and `dividedBy` use it as a shortcut. As written, it ends with
`return false` on every path, so `AlgebraicNumbers.IsOne` is false for every
number. As a result, the `isOne`
shortcuts in `times` and `dividedBy` are never taken
(`AlgebraicNumbers.Times`, `AlgebraicNumbers.DividedBy`).

## Model

| member | source | states |
|---|---|---|
| AlgebraicNumbers.Create | src/main/java/com/vzome/core/algebra/AlgebraicNumber.java:16-28 | fails iff more coefficients than the field's order are given, reporting their count and the field name; otherwise the given coefficients keep their positions and the rest up to the order are zero |
| AlgebraicNumberLoops.Create | src/main/java/com/vzome/core/algebra/AlgebraicNumber.java:16-28 | the copy loop and the zero-fill loop build exactly AlgebraicNumbers.Create's number or error |
| AlgebraicNumbers.DivisorOf | src/main/java/com/vzome/core/algebra/AlgebraicNumber.java:35-43 | the folded lcm of the denominators is positive |
| AlgebraicNumbers.DivisorIsLeastCommonMultiple | src/main/java/com/vzome/core/algebra/AlgebraicNumber.java:35-43 | getDivisor is divisible by every coefficient's denominator and divides every common multiple of them |
| AlgebraicNumbers.ScaledByDivisorIsIntegral | src/main/java/com/vzome/core/algebra/AlgebraicNumber.java:30-43 | multiplying every coefficient by getDivisor clears its denominator |
| AlgebraicNumbers.DivisorExample | src/main/java/com/vzome/core/algebra/AlgebraicNumber.java:35-43 | the divisor of 1/2 and 1/3 is 6 |
| AlgebraicNumberLoops.GetDivisor | src/main/java/com/vzome/core/algebra/AlgebraicNumber.java:35-43 | the loop `lcm = abs(lcm*d)/gcd(lcm,d)` returns DivisorOf of the coefficients |
| AlgebraicNumbers.Equals | src/main/java/com/vzome/core/algebra/AlgebraicNumber.java:61-74 | equals holds iff the other number is present (not null) and has the same field and the same coefficient sequence |
| AlgebraicNumbers.CompareTo | src/main/java/com/vzome/core/algebra/AlgebraicNumber.java:76-100 | compareTo(null) is -1 and comparing with an equal number is 0 |
| AlgebraicNumbers.CompareToFirstDifference | src/main/java/com/vzome/core/algebra/AlgebraicNumber.java:87-98 | for numbers of the same order, the first differing coefficient decides, with that coefficient comparison's sign, and the result is nonzero |
| AlgebraicNumbers.CompareToZeroIffEquals | src/main/java/com/vzome/core/algebra/AlgebraicNumber.java:76-100 | when field comparison is 0 exactly for equal fields, compareTo is 0 exactly when equals holds |
| AlgebraicNumbers.CompareToAntisymmetric | src/main/java/com/vzome/core/algebra/AlgebraicNumber.java:76-100 | when field comparison is antisymmetric, a.compareTo(b) is minus b.compareTo(a) |
| AlgebraicNumbers.CompareFactorsZeroIff | src/main/java/com/vzome/core/algebra/AlgebraicNumber.java:91-99 | the coefficient loop yields 0 iff the remaining coefficients agree and the tie-break is 0 |
| AlgebraicNumbers.CompareFactors | src/main/java/com/vzome/core/algebra/AlgebraicNumber.java:91-99 | the coefficient loop from position i, falling back to the tie-break; a zero result means the tie-break was zero (its meaning is stated by the three CompareFactors lemmas) |
| AlgebraicNumbers.CompareFactorsFirstDifference | src/main/java/com/vzome/core/algebra/AlgebraicNumber.java:91-98 | the coefficient loop returns the comparison at the first differing position, which is nonzero |
| AlgebraicNumbers.CompareFactorsAntisymmetric | src/main/java/com/vzome/core/algebra/AlgebraicNumber.java:91-99 | swapping the operands (and negating the tie-break) negates the coefficient loop's result |
| AlgebraicNumberLoops.CompareTo | src/main/java/com/vzome/core/algebra/AlgebraicNumber.java:76-100 | the early-returning loop computes AlgebraicNumbers.CompareTo |
| AlgebraicNumbers.Compare | src/main/java/com/vzome/core/algebra/AlgebraicNumber.java:102-107 | compare(null, null) is 0, compare(null, b) and compare(a, null) are -1, and equal arguments give 0 |
| AlgebraicNumbers.Plus | src/main/java/com/vzome/core/algebra/AlgebraicNumber.java:114-124 | adding a zero number returns this unchanged; otherwise each coefficient is the rational sum of the two, in this number's field |
| AlgebraicNumberLoops.Plus | src/main/java/com/vzome/core/algebra/AlgebraicNumber.java:114-124 | the zero test and the summing loop compute AlgebraicNumbers.Plus |
| AlgebraicNumbers.Times | src/main/java/com/vzome/core/algebra/AlgebraicNumber.java:126-133 | given the field's zero (the all-zero number of this number's field), a zero operand gives it; every other operand, including one, goes through the field multiplication (the isOne shortcut is dead) |
| AlgebraicNumbers.Minus | src/main/java/com/vzome/core/algebra/AlgebraicNumber.java:135-140 | minus is plus of the negation, which is this itself when the operand is zero |
| AlgebraicNumberLoops.Minus | src/main/java/com/vzome/core/algebra/AlgebraicNumber.java:135-140 | the method computes AlgebraicNumbers.Minus |
| AlgebraicNumbers.MinusSelfIsZero | src/main/java/com/vzome/core/algebra/AlgebraicNumber.java:135-140 | a.minus(a) is zero |
| AlgebraicNumbers.DividedBy | src/main/java/com/vzome/core/algebra/AlgebraicNumber.java:142-147 | the isOne shortcut is never taken: dividedBy is always times the reciprocal, failing when the reciprocal cannot be built |
| AlgebraicNumbers.IsZeroIffZeros | src/main/java/com/vzome/core/algebra/AlgebraicNumber.java:154-162 | isZero holds iff every coefficient is zero |
| AlgebraicNumbers.IsZero | src/main/java/com/vzome/core/algebra/AlgebraicNumber.java:154-162 | isZero: no coefficient is nonzero; IsZeroIffZeros gives it as the all-zero coefficient sequence |
| AlgebraicNumberLoops.IsZero | src/main/java/com/vzome/core/algebra/AlgebraicNumber.java:154-162 | the early-exit scan computes isZero |
| AlgebraicNumbers.IsOne | src/main/java/com/vzome/core/algebra/AlgebraicNumber.java:164-174 | as written, isOne is false for every number |
| AlgebraicNumberLoops.IsOne | src/main/java/com/vzome/core/algebra/AlgebraicNumber.java:164-174 | the scan computes AlgebraicNumbers.IsOne, hence false |
| AlgebraicNumbers.Negate | src/main/java/com/vzome/core/algebra/AlgebraicNumber.java:176-184 | every coefficient is negated, in the same field |
| AlgebraicNumberLoops.Negate | src/main/java/com/vzome/core/algebra/AlgebraicNumber.java:176-184 | the negating loop computes AlgebraicNumbers.Negate |
| AlgebraicNumbers.NegateInvolutive | src/main/java/com/vzome/core/algebra/AlgebraicNumber.java:176-184 | negating twice gives the number back |
| AlgebraicNumbers.NegateIsZeroIff | src/main/java/com/vzome/core/algebra/AlgebraicNumber.java:176-184 | the negation is zero iff the number is |
| AlgebraicNumbers.PlusNegateIsZero | src/main/java/com/vzome/core/algebra/AlgebraicNumber.java:114-124 | a.plus(a.negate()) is zero for every a |
| JavaInts.Wrap | src/main/java/com/vzome/core/math/Polyhedron.java:156-158 | an int result is congruent to the exact value modulo 2^32 and equal to it when it is in range |
| JavaInts.WrapAdd | src/main/java/com/vzome/core/math/Polyhedron.java:156-158 | wrapping after every addition of the running sum equals wrapping the exact sum once |
| JavaInts.ParseInt | src/main/java/com/vzome/core/viewing/ExportedVEFShapes.java:277-282 | a parsed value is nonnegative unless the text starts with '-' |
| JavaInts.ParseFormat | src/main/java/com/vzome/core/viewing/ExportedVEFShapes.java:277-282 | parseInt reads back every int written in decimal |
| JavaInts.Format | src/main/java/com/vzome/core/viewing/ExportedVEFShapes.java:278-282 | the decimal text of an int is never empty; ParseFormat proves that parseInt reads it back |
| JavaInts.ParseIntRefusesLetters | src/main/java/com/vzome/core/viewing/ExportedVEFShapes.java:294-299 | a token with a non-digit after its first character is refused |
| Polyhedra.VertexAt | src/main/java/com/vzome/core/math/Polyhedron.java:114-123 | getVertex succeeds iff the index is within the face, failing with "index larger than Face size" at or past the end, and returns the stored index |
| Polyhedra.VertexOf | src/main/java/com/vzome/core/math/Polyhedron.java:127-129 | a vertex-list lookup succeeds iff the index is within the list and returns that vertex |
| Polyhedra.Normal | src/main/java/com/vzome/core/math/Polyhedron.java:125-133 | the normal exists iff the first three indices and their vertices exist, and is then (v1 - v0) x (v2 - v0) |
| Polyhedra.Face.ComputeNormal | src/main/java/com/vzome/core/math/Polyhedron.java:125-133 | sets the face's normal to Normal on success and fails with Normal's error, leaving the normal unchanged |
| Polyhedra.LastMin | src/main/java/com/vzome/core/math/Polyhedron.java:137-144 | the index found is that of the last occurrence of the minimum |
| Polyhedra.LastMinUnique | src/main/java/com/vzome/core/math/Polyhedron.java:137-144 | there is only one last occurrence of the minimum |
| Polyhedra.LastMinScan | src/main/java/com/vzome/core/math/Polyhedron.java:137-144 | the `<=` scan from MAX_VALUE returns -1 for an empty face and LastMin otherwise |
| Polyhedra.RotatedCopy | src/main/java/com/vzome/core/math/Polyhedron.java:145-148 | temp holds the face rotated to start at minIndex |
| Polyhedra.Canonical | src/main/java/com/vzome/core/math/Polyhedron.java:135-151 | canonical order keeps the face's length |
| Polyhedra.Rotate | src/main/java/com/vzome/core/math/Polyhedron.java:145-148 | the copy `temp[j] = get((j+r) % sz)`: a sequence of the same length, whose rotations CanonicalRotationInvariant relates |
| Polyhedra.CanonicalIsRotationToLastMin | src/main/java/com/vzome/core/math/Polyhedron.java:135-151 | canonical order is the rotation to the last minimum: a permutation whose first element is the minimum |
| Polyhedra.CanonicalRotationInvariant | src/main/java/com/vzome/core/math/Polyhedron.java:135-151 | for distinct indices, every rotation of a face has the same canonical order |
| Polyhedra.CanonicalIdempotent | src/main/java/com/vzome/core/math/Polyhedron.java:135-151 | for distinct indices, ordering twice is ordering once |
| Polyhedra.CanonicalTies | src/main/java/com/vzome/core/math/Polyhedron.java:141 | with a repeated minimum neither holds: [0,0,1,1] and its rotation [0,1,1,0] canonicalise to each other |
| Polyhedra.CanonicalOfSortedTie | src/main/java/com/vzome/core/math/Polyhedron.java:141 | [0,0,1,1] canonicalises to its rotation [0,1,1,0] |
| Polyhedra.CanonicalOfRotatedTie | src/main/java/com/vzome/core/math/Polyhedron.java:141 | [0,1,1,0] canonicalises to [0,0,1,1] |
| Polyhedra.Face.CanonicallyOrder | src/main/java/com/vzome/core/math/Polyhedron.java:135-151 | the face's indices become Canonical of the old ones |
| Polyhedra.Face.HashCode | src/main/java/com/vzome/core/math/Polyhedron.java:153-160 | the running int sum is the wrapped sum of the indices |
| Polyhedra.CanonicalKeepsHash | src/main/java/com/vzome/core/math/Polyhedron.java:153-160 | canonical ordering does not change a face's hash |
| Polyhedra.HashOf | src/main/java/com/vzome/core/math/Polyhedron.java:153-160 | the hash is congruent modulo 2^32 to the exact sum of the indices |
| Polyhedra.EqualFacesHashEqually | src/main/java/com/vzome/core/math/Polyhedron.java:153-179 | faces equal in canonical order have equal hash codes |
| Polyhedra.Face.Equals | src/main/java/com/vzome/core/math/Polyhedron.java:162-179 | equals holds iff the other face exists and has the same indices in the same positions |
| Polyhedra.Face.constructor | src/main/java/com/vzome/core/math/Polyhedron.java:112 | a new face has no indices and no normal |
| Polyhedra.Face.AddAll | src/main/java/com/vzome/core/viewing/ExportedVEFShapes.java:236-237 | the indices are appended in order |
| Polyhedra.AddFaceTo | src/main/java/com/vzome/core/math/Polyhedron.java:80-91 | adding succeeds iff the normal can be computed; the set then gains the canonical form, keeps every stored face, and stores the new face's normal when the form was absent |
| Polyhedra.AddFaceGrowsByAtMostOne | src/main/java/com/vzome/core/math/Polyhedron.java:80-91 | the face set grows by at most one face, and by none when the canonical form is already there |
| Polyhedra.AddRotatedFaceIsNoChange | src/main/java/com/vzome/core/math/Polyhedron.java:80-91 | adding a rotation of a stored face with distinct indices leaves the set as it was |
| Polyhedra.AddFacesTo | src/main/java/com/vzome/core/viewing/ExportedVEFShapes.java:233-239 | adds the parsed faces to the face set in list order through AddFaceTo and stops at the first face whose normal cannot be computed, with that face's error; its meaning is given by AddFacesToStoresCanonicalForms, AddFacesToKeepsStoredFaces and AddFacesToFailureStops |
| Polyhedra.AddFacesToStoresCanonicalForms | src/main/java/com/vzome/core/viewing/ExportedVEFShapes.java:233-239 | adding a list of faces succeeds iff each face's normal can be computed, and the set then holds exactly the old faces plus the canonical forms of the list |
| Polyhedra.AddFacesToKeepsStoredFaces | src/main/java/com/vzome/core/viewing/ExportedVEFShapes.java:233-239 | adding the faces in order never drops a stored face or replaces its normal |
| Polyhedra.RotatedDuplicateAddsNoForm | src/main/java/com/vzome/core/viewing/ExportedVEFShapes.java:233-239 | a rotated copy of a listed face with distinct indices adds no new canonical form |
| Polyhedra.AddFacesToFailureStops | src/main/java/com/vzome/core/viewing/ExportedVEFShapes.java:233-239 | once a face fails, the faces after it change nothing |
| Polyhedra.Polyhedron.constructor | src/main/java/com/vzome/core/math/Polyhedron.java:30-33 | a new polyhedron is empty, with counter 0, and every index is a list position |
| Polyhedra.Polyhedron.AddVertex | src/main/java/com/vzome/core/math/Polyhedron.java:56-59 | appends the location to the vertex list; the index map, counter and faces are unchanged |
| Polyhedra.Polyhedron.AddIndexedVertex | src/main/java/com/vzome/core/math/Polyhedron.java:69-78 | a mapped location returns its index and changes nothing; a new one is appended and mapped to the counter's old value, which is returned, and the counter grows by one; when only this method is used each index is its location's position in the list |
| Polyhedra.Polyhedron.AddFace | src/main/java/com/vzome/core/math/Polyhedron.java:80-91 | fails iff the normal cannot be computed, changing nothing; otherwise the face gets its normal and canonical order and the face set becomes AddFaceTo's; the vertex list is untouched |
| VefShapes.VefToShape.constructor | src/main/java/com/vzome/core/viewing/ExportedVEFShapes.java:184-192 | all accumulators start empty and there is no tip |
| VefShapes.VefToShape.AddFace | src/main/java/com/vzome/core/viewing/ExportedVEFShapes.java:243-251 | appends the index list unchanged |
| VefShapes.VefToShape.AddVertex | src/main/java/com/vzome/core/viewing/ExportedVEFShapes.java:253-257 | appends the projected vertex |
| VefShapes.VefToShape.AddBall | src/main/java/com/vzome/core/viewing/ExportedVEFShapes.java:259-262 | adds the vertex index to the tip set |
| VefShapes.ParseMiddles | src/main/java/com/vzome/core/viewing/ExportedVEFShapes.java:292-301 | the middle loop keeps at most as many indices as there are tokens |
| VefShapes.ParseMiddlesKeepsLeadingInts | src/main/java/com/vzome/core/viewing/ExportedVEFShapes.java:292-301 | the kept indices are the values of the leading tokens; the loop succeeds iff every token is an int, and otherwise fails naming the first one that is not |
| VefShapes.ParseMiddlesFormatted | src/main/java/com/vzome/core/viewing/ExportedVEFShapes.java:292-301 | ints written in decimal are all read back, in order |
| VefShapes.MiddleResult | src/main/java/com/vzome/core/viewing/ExportedVEFShapes.java:286-301 | after the tip, no tokens is success and a token other than "middle" is an error, both leaving the midpoint set as it was; after "middle", the set gains the ints ParseMiddles keeps and the outcome is ParseMiddles' (success iff every token parses, else the first bad token) |
| VefShapes.VefToShape.ReadAfterTip | src/main/java/com/vzome/core/viewing/ExportedVEFShapes.java:286-301 | the midpoint set and outcome are MiddleResult's |
| VefShapes.EndFileResult | src/main/java/com/vzome/core/viewing/ExportedVEFShapes.java:264-302 | no tokens changes nothing; a first token other than "tip", a lone "tip", a non-int tip index and an index outside the vertex list are each their own error and change nothing; a valid index n sets vertex n as the tip and what follows is MiddleResult's; success means no tokens or a tip was set |
| VefShapes.EndFileReadsWrittenTail | src/main/java/com/vzome/core/viewing/ExportedVEFShapes.java:264-302 | reading `tip t middle m1 ... mk` sets vertex t as the tip and adds exactly m1..mk to the midpoints |
| VefShapes.EndFileTipOnly | src/main/java/com/vzome/core/viewing/ExportedVEFShapes.java:264-287 | reading `tip t` alone sets vertex t as the tip and nothing else |
| VefShapes.ParseMiddlesStopsAtBadToken | src/main/java/com/vzome/core/viewing/ExportedVEFShapes.java:292-301 | the `middle` loop stops at the first token that is not an int, keeping exactly the ints before it and naming that token |
| VefShapes.EndFileMiddleFailureKeepsEarlier | src/main/java/com/vzome/core/viewing/ExportedVEFShapes.java:284-301 | `tip t middle m1..mk x ...` with x not an int fails naming x, with tip t set and m1..mk already added |
| VefShapes.VefToShape.EndFile | src/main/java/com/vzome/core/viewing/ExportedVEFShapes.java:264-302 | the new tip, midpoint set and outcome are EndFileResult's |
| VefShapes.StrutVertex | src/main/java/com/vzome/core/viewing/ExportedVEFShapes.java:209-219 | a tip vertex is shifted by minus the tip, otherwise a midpoint vertex by minus half the tip, otherwise unshifted, then multiplied by the adjustment |
| VefShapes.Adjustment | src/main/java/com/vzome/core/viewing/ExportedVEFShapes.java:197-205 | the matrix of the inverse of the tip axis's orientation, computed once for all vertices; no contract of its own, GetStrutGeometry uses it |
| VefShapes.VefToShape.GetStrutGeometry | src/main/java/com/vzome/core/viewing/ExportedVEFShapes.java:194-223 | fails iff there is no tip; otherwise the geometry has one StrutVertex per vertex in order, under one adjustment matrix, with the faces, prototype and index sets passed on |
| VefShapes.VefToShape.GetConnectorPolyhedron | src/main/java/com/vzome/core/viewing/ExportedVEFShapes.java:225-241 | a new polyhedron of the given field, with counter 0 and an empty vertex index, whose vertex list is the parsed vertices and whose face set is AddFacesTo's over the parsed faces; it fails iff AddFacesTo does, with the same error |
| VefShapes.AddParsedFaces | src/main/java/com/vzome/core/viewing/ExportedVEFShapes.java:233-239 | the loop passing each parsed face through addFace ends as AddFacesTo on the stored faces: it fails iff AddFacesTo does, with its error, and otherwise leaves its face set |
| Selections.OtherAddsNothing | src/main/java/com/vzome/core/editor/LinearMapTool.java:61-85 | a panel or other manifestation adds neither a connector nor a strut |
| LinearMapTools.ScanSelection | src/main/java/com/vzome/core/editor/LinearMapTool.java:58-86 | the scan holds at most six struts and never looks past the selection |
| LinearMapTools.ScanWhileCorrect | src/main/java/com/vzome/core/editor/LinearMapTool.java:58-86 | the scan stays correct iff there is at most one connector and at most six struts, and it then has seen everything, holds every strut in order and the connector |
| LinearMapTools.ScanStops | src/main/java/com/vzome/core/editor/LinearMapTool.java:61-75 | an incorrect scan stopped right at a second connector or a seventh strut |
| LinearMapTools.StoppedScanIsFinal | src/main/java/com/vzome/core/editor/LinearMapTool.java:63-75 | after the break, the rest of the selection is not looked at |
| LinearMapTools.AcceptedIff | src/main/java/com/vzome/core/editor/LinearMapTool.java:58-90 | the selection is accepted iff it has at most one connector and exactly three or six struts; otherwise the result is the one error message |
| LinearMapTools.TransformFromSelection | src/main/java/com/vzome/core/editor/LinearMapTool.java:76-100 | for six struts the first three are the old basis and the next three the new; for three, the single basis carries originalScaling; the centre is the connector or else the origin |
| LinearMapTools.OthersIgnored | src/main/java/com/vzome/core/editor/LinearMapTool.java:58-86 | a panel or other manifestation anywhere does not change the verdict |
| LinearMapTools.Step | src/main/java/com/vzome/core/editor/LinearMapTool.java:61-86 | one iteration takes one manifestation; it breaks exactly on a connector when a centre is held or on a strut when six are held, and keeps at most six struts |
| LinearMapTools.Verdict | src/main/java/com/vzome/core/editor/LinearMapTool.java:58-90 | checkSelection's result is null or the one linear-map message; AcceptedIff says which |
| LinearMapTools.Transform | src/main/java/com/vzome/core/editor/LinearMapTool.java:92-100 | the transformation of a prepared tool; TransformFromSelection states it in terms of the selection |
| LinearMapTools.LinearMapTool.constructor | src/main/java/com/vzome/core/editor/LinearMapTool.java:25-30 | records the arguments; nothing unselected, no transforms |
| LinearMapTools.LinearMapTool.WithoutOriginalScaling | src/main/java/com/vzome/core/editor/LinearMapTool.java:20-23 | the same with originalScaling false |
| LinearMapTools.LinearMapTool.Equals | src/main/java/com/vzome/core/editor/LinearMapTool.java:32-49 | a tool equals itself; two distinct tools are equal iff the inherited comparison holds and their originalScaling agree |
| LinearMapTools.LinearMapTool.ScanBases | src/main/java/com/vzome/core/editor/LinearMapTool.java:53-86 | the loop ends in ScanSelection's state, with oldBasis holding struts 1-3 and newBasis struts 4-6 as far as they exist, and unselects, when preparing, exactly the manifestations scanned |
| LinearMapTools.ScanOne | src/main/java/com/vzome/core/editor/LinearMapTool.java:61-85 | one iteration on a correct scan ends in Step's state, with the strut stored at slot index % 3 of the basis index / 3 picks |
| LinearMapTools.LinearMapTool.CheckSelection | src/main/java/com/vzome/core/editor/LinearMapTool.java:51-102 | the result is the verdict; when preparing an accepted selection the tool gets exactly one transform, and otherwise transforms is untouched; when preparing, the scanned prefix is unselected in order |
| ScalingTools.ScanSelection | src/main/java/com/vzome/core/editor/ScalingTool.java:44-70 | the after strut is never taken without the before strut, and the scan never looks past the selection |
| ScalingTools.ScanWhileCorrect | src/main/java/com/vzome/core/editor/ScalingTool.java:44-70 | the scan stays correct iff there is at most one connector and at most two struts; it then holds the first two struts, the connector, and whether there is a panel |
| ScalingTools.ScanStops | src/main/java/com/vzome/core/editor/ScalingTool.java:47-67 | the scan stops right at a second connector or a third strut, and its centre is a connector scanned before the stop |
| ScalingTools.StoppedScanIsFinal | src/main/java/com/vzome/core/editor/ScalingTool.java:49-62 | after the break, the rest of the selection is not looked at |
| ScalingTools.AcceptedIff | src/main/java/com/vzome/core/editor/ScalingTool.java:72-95 | accepted iff at most one connector (exactly one when validating), exactly two struts in the same orbit, and no panel when validating |
| ScalingTools.NoCenterComesFirst | src/main/java/com/vzome/core/editor/ScalingTool.java:72-77 | validating without a connector reports the missing centre, whatever the struts |
| ScalingTools.TooFewStruts | src/main/java/com/vzome/core/editor/ScalingTool.java:79-83 | fewer than two struts, when preparing or with a connector, gives the struts error |
| ScalingTools.PanelRefusedWhenValidating | src/main/java/com/vzome/core/editor/ScalingTool.java:80-81 | a panel makes validation fail |
| ScalingTools.VerdictWhenPreparing | src/main/java/com/vzome/core/editor/ScalingTool.java:72-89 | when preparing, the verdict depends only on the connector count and the struts |
| ScalingTools.PanelIgnoredWhenPreparing | src/main/java/com/vzome/core/editor/ScalingTool.java:68-81 | when preparing, a panel anywhere does not change the verdict |
| ScalingTools.TransformFromSelection | src/main/java/com/vzome/core/editor/ScalingTool.java:91-94 | the scaling goes from the first strut to the second, about the connector or else the origin |
| ScalingTools.Step | src/main/java/com/vzome/core/editor/ScalingTool.java:47-70 | one iteration takes one manifestation; it breaks exactly on a connector when a centre is held or on a strut when two are held, and takes the after strut only after the before strut |
| ScalingTools.Verdict | src/main/java/com/vzome/core/editor/ScalingTool.java:44-96 | checkSelection's result is null or one of the three messages, and never the missing-centre message when preparing |
| ScalingTools.Transform | src/main/java/com/vzome/core/editor/ScalingTool.java:91-94 | the scaling of a prepared tool; TransformFromSelection states it in terms of the selection |
| ScalingTools.VerdictWhenValidating | src/main/java/com/vzome/core/editor/ScalingTool.java:72-89 | validating at most two struts gives the missing-centre message without a connector, else the struts message for several connectors, fewer than two struts or a panel, else the orbit message for different orbits, else null |
| ScalingTools.ThirdStrutVerdict | src/main/java/com/vzome/core/editor/ScalingTool.java:56-62 | a third strut breaks the scan: validating then gives the missing-centre message when no connector came before it and the struts message otherwise, whatever follows |
| ScalingTools.ScalingTool.constructor | src/main/java/com/vzome/core/editor/ScalingTool.java:32-35 | records the arguments; nothing unselected, no transforms |
| ScalingTools.ScalingTool.ScanStruts | src/main/java/com/vzome/core/editor/ScalingTool.java:40-70 | the loop ends in ScanSelection's state and unselects, when preparing, exactly the manifestations scanned |
| ScalingTools.ScalingTool.CheckSelection | src/main/java/com/vzome/core/editor/ScalingTool.java:38-96 | the result is the verdict, with the symmetry's axis orbit as the orbit oracle; exactly one transform is created iff preparing an accepted selection; when preparing, the scanned prefix is unselected in order |

## Left out

- BigRational, AlgebraicField, AlgebraicVector, AlgebraicMatrix and Symmetry are not part of this model. Their operations are parameters: field `multiply`, `reciprocal`, `zero`, `projectTo3d` and field comparison; vector `minus`, `cross` and `scale`; matrix `timesColumn`; symmetry `getAxis` followed by `getOrientation`/`getDirection`, `inverse` and `getMatrix`.
- AlgebraicNumber `evaluate` (floating point), `getNumberExpression`/`toString` (formatting done by the field), `hashCode` (its value), `getFactors`, `getField`, and the body of `reciprocal`, which is the field's.
- AlgebraicNumbers.Times, AlgebraicNumbers.DividedBy: the field's `zero()` is a parameter, required to be the all-zero number of the operand's field, which is what that method returns.
- AlgebraicNumbers.Equals: field equality is structural, by name and order. `AlgebraicField.equals` is not part of this model.
- AlgebraicNumbers.DividedBy: one `FieldArithmetic` supplies both this number's multiply and zero and the operand's reciprocal. The Java takes the reciprocal from the operand's own field, so the two agree only when both numbers are in the same field.
- AlgebraicNumbers.Plus: requires the operand to be zero or to have at least as many coefficients; a shorter operand, which makes the Java throw an index exception, is not modelled.
- AlgebraicNumbers.CompareTo: transitivity is not proved; only zero-iff-equal, antisymmetry and the first-difference rule are.
- Polyhedra.Polyhedron.AddIndexedVertex: the counter is an unbounded integer, so Java int overflow of `numVertices` is not modelled.
- Polyhedra.Polyhedron.AddFace: a stored `Face` object is represented by its canonical indices and its normal. Later changes to that object, which would move it inside the Java `HashSet`, are not modelled.
- Polyhedra.Face.Equals: the `instanceof` check is covered by the parameter type; only faces are compared.
- Polyhedron's `setName`/`getName`, orbit and length accessors, `getField`, `getVertexList`, `getFaceSet`, `newFace`, and Face's `getNormal`: plain accessors.
- JavaInts.ParseInt: only ASCII digits are accepted. `Integer.parseInt` also accepts other Unicode decimal digits.
- ExportedVEFShapes constructors, `loadVefData`, `hasColors`, `getColor`, `buildConnectorShape` and `createStrutGeometry`: file, class-loader and `Properties` I/O. The VEF parser that calls the handler is also left out; `endFile` receives its remaining tokens as a sequence of strings.
- VefShapes.VefToShape.GetStrutGeometry: `getAxis` returning null for the tip, which makes the Java throw, is not modelled. The symmetry is assumed to map every vector to an axis.
- VefShapes.VefToShape.EndFile: the exception messages are represented by error constructors that carry the offending token.
- ExportedVEFStrutGeometry is represented by a record of what is passed to its constructor.
- The `ChangeOfBasis` and `Scaling` constructions are represented by records of their arguments. The two-basis form receives sequences instead of the arrays. The scaling record leaves out the symmetry, which is the tool's own.
- The tools' `unselect` is recorded only as the order of the unselected manifestations. `TransformationTool.equals`, which `LinearMapTool.equals` calls first, is a boolean parameter.
- ScalingTools.ScalingTool.CheckSelection: `getAxis` returning null for a strut offset is not modelled. Orbits are compared as identifiers, as the Java compares `Direction` references.
- Tool XML serialisation (`setXmlAttributes`, `getXmlElementName`), `getCategory` and `getDefaultName`.
- SelectSimilarSizeStruts, DodecagonSymmetry, SymmetryAxisChange and Connector are not part of this model.
