/**
 * The vector, matrix and symmetry collaborators of the polyhedron and shape
 * code.  Their arithmetic is defined elsewhere in the system, so it is given
 * here as function values that the model never looks inside.
 */
module Geometry {
  import AN = AlgebraicNumbers
  import Q = Rationals

  /** AlgebraicVector: a tuple of field elements, compared coordinatewise. */
  datatype Vector = Vector(coordinates: seq<AN.AlgebraicNumber>)

  /** AlgebraicMatrix, as its columns. */
  datatype Matrix = Matrix(columns: seq<Vector>)

  /**
   * AlgebraicVector.minus/cross/scale, AlgebraicMatrix.timesColumn and
   * AlgebraicField.projectTo3d.
   */
  datatype VectorAlgebra = VectorAlgebra(
    minus: (Vector, Vector) -> Vector,
    cross: (Vector, Vector) -> Vector,
    scale: (Vector, Q.Rat) -> Vector,
    timesColumn: (Matrix, Vector) -> Vector,
    projectTo3d: (Vector, bool) -> Vector)

  /**
   * The parts of a Symmetry that the model consults: the orientation and the
   * orbit of the axis of a vector (getAxis followed by getOrientation or
   * getDirection), the inverse of an orientation, and its matrix.
   */
  datatype Symmetry = Symmetry(
    field: AN.Field,
    axisOrientation: Vector -> int,
    axisOrbit: Vector -> nat,
    inverse: int -> int,
    matrix: int -> Matrix)
}
