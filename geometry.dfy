/**
 * Geometry as the pipeline sees it: an opaque polygon and the closed set of geometry kinds
 * it tells apart with `isinstance` (Polygon, MultiPolygon, anything else).
 */
module Geometry {

  datatype Point = Point(x: real, y: real)

  /**
   * One polygon, already flattened to two dimensions. Its coordinates are not modelled;
   * the values the geometry library computes from them are: the centroid, the planar
   * area and the well-known-text serialisation.
   */
  datatype Polygon = Polygon(centroid: Point, area: real, wkt: string)

  /** A geometry: one polygon, a multipolygon with its parts in order, or any other kind the library builds (line, point, ...). */
  datatype Geom = Poly(polygon: Polygon) | Multi(parts: seq<Polygon>) | Other

  /** One `{name, geometry}` record. */
  datatype Feature = Feature(name: string, geometry: Geom)
}
