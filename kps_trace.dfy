/**
 * The records the Kirkpatrick–Seidel pipeline pushes on its `actions` array for the animation,
 * and the two editions of the pipeline.
 */
module KpsTrace {
  import opened Geometry

  /** `script.js`, or its commented copy `doc_script.js`, which differs in two places. */
  datatype Edition = Script | DocScript

  /** One entry of the `actions` array; the tag is the record's first element in the source. */
  datatype KpsAction =
    | Ddl(a: Point, b: Point)            // "ddl": dashed line between the two points of a pair
    | Hidp(points: seq<Point>)           // "hidp": grey out points that can no longer be on the hull
    | Crdl(a: Point, b: Point)           // "crdl": colour a pair of slope below the median slope
    | Cgdl(a: Point, b: Point)           // "cgdl": colour a pair of slope above the median slope
    | Cydl(a: Point, b: Point)           // "cydl": colour a pair of slope equal to the median slope
    | Dsup(p: Point, slope: real)        // "dsup": the supporting line of the median slope through `p`
    | Hrc(a: Point, b: Point)            // "hrc": highlight the two ends of the supporting line
    | Radl                               // "radl": remove every dashed line
    | Kagp(p: Point)                     // "kagp": mark a hull vertex
    | Kmedx(x: real)                     // "kmedx": the vertical line at the median x
    | Dsl(a: Point, b: Point)            // "dsl": draw a hull edge
    | Kabp(a: Point, b: Point)           // "kabp": mark the leftmost and rightmost points
    | Uhid                               // "uhid": show every hidden point again
    | Xterm(points: seq<Point>)          // "xterm": draw the vertical run of extreme points
}
