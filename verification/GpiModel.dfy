// Waypoints, options and the block tree of the Garmin GPI writer.
module GpiModel {
  import opened CString
  import opened Wrappers

  // The Garmin-specific fields a waypoint may carry.
  datatype Gmsd = Gmsd(addr: Option<CStr>, city: Option<CStr>, country: Option<CStr>,
                       state: Option<CStr>, postalCode: Option<CStr>, phoneNr: Option<CStr>)

  // gpi_waypt_t: what the size pass leaves with the waypoint for the write pass.
  datatype Extra = Extra(sz: nat, alerts: nat, mask: nat, addr: Option<CStr>, city: Option<CStr>,
                         country: Option<CStr>, phoneNr: Option<CStr>, postalCode: Option<CStr>, state: Option<CStr>)

  const NO_EXTRA := Extra(0, 0, 0, None, None, None, None, None, None)

  // `nameSpeed` stands for what parse_speed makes of the text behind an '@' in the name, and
  // `posText` for what pretty_deg_format prints.
  datatype Waypt = Waypt(lat: real, lon: real, name: CStr, description: Option<CStr>, notes: Option<CStr>,
                         gmsd: Option<Gmsd>, speed: Option<real>, proximity: Option<real>,
                         nameSpeed: real, posText: CStr, extra: Extra)

  datatype Options = Options(category: CStr, hideBitmap: bool, descr: bool, notes: bool, pos: bool,
                             alerts: bool, defSpeed: Option<real>, defProximity: Option<real>)

  datatype Bounds = Bounds(maxLat: real, maxLon: real, minLat: real, minLon: real)

  const EMPTY_BOUNDS := Bounds(-9999.0, -9999.0, 9999.0, 9999.0)

  // writer_data_t: the waypoints queued here and the four quadrants.
  datatype QTree =
    | NoBlock
    | Block(q: seq<Waypt>, ct: int, sz: int, alert: int, bds: Bounds,
            topLeft: QTree, topRight: QTree, bottomLeft: QTree, bottomRight: QTree)

  // All waypoints, in the order they are written.
  function Points(t: QTree): seq<Waypt> {
    match t
    case NoBlock => []
    case Block(q, _, _, _, _, a, b, c, d) => q + Points(a) + Points(b) + Points(c) + Points(d)
  }

  // Conversion to semicircles: a scaled double, truncated to an integer.
  const SEMI_PER_DEG := 2147483648.0 / 180.0

  function Truncate(x: real): int {
    if x >= 0.0 then x.Floor else -(-x).Floor
  }

  function DegToSemi(v: real): int {
    Truncate(SEMI_PER_DEG * v)
  }

  // A longitude or latitude a GPI file can hold.
  predicate OnGlobe(v: real) {
    -180.0 <= v < 180.0
  }

  /** Positions on the globe fit a signed 32-bit integer. */
  lemma SemicircleRange(v: real)
    requires OnGlobe(v)
    ensures -0x8000_0000 <= DegToSemi(v) < 0x8000_0000
  {
    var x := SEMI_PER_DEG * v;
    assert -2147483648.0 <= x < 2147483648.0;
  }

  function Abs(x: int): nat {
    if x < 0 then -x else x
  }

  function AbsR(x: real): real {
    if x < 0.0 then -x else x
  }

  /** A position is cut towards zero to a whole multiple of 180 / 2^31 degrees. */
  lemma SemicirclesAre(v: real)
    ensures 180.0 * Abs(DegToSemi(v)) as real <= 2147483648.0 * AbsR(v) < 180.0 * (Abs(DegToSemi(v)) + 1) as real
    ensures (v >= 0.0 ==> DegToSemi(v) >= 0) && (v <= 0.0 ==> DegToSemi(v) <= 0)
  {
    Truncated(SEMI_PER_DEG * v);
    assert SEMI_PER_DEG * v * 180.0 == 2147483648.0 * v;
  }

  lemma Truncated(x: real)
    ensures Abs(Truncate(x)) as real <= AbsR(x) < (Abs(Truncate(x)) + 1) as real
    ensures (x >= 0.0 ==> Truncate(x) >= 0) && (x <= 0.0 ==> Truncate(x) <= 0)
  {
  }

  // GPS_Math_Semi_To_Deg
  function SemiToDeg(v: int): real {
    v as real / 2147483648.0 * 180.0
  }

  // Apart by less than one semicircle, and not further from zero.
  predicate Near(read: real, written: real) {
    AbsR(read) <= AbsR(written) && (AbsR(written) - AbsR(read)) * 2147483648.0 < 180.0 && read * written >= 0.0
  }

  /** Back in degrees, a position differs by less than one semicircle from what it was. */
  lemma DegreesComeBack(v: real)
    ensures Near(SemiToDeg(DegToSemi(v)), v)
  {
    SemicirclesAre(v);
    var n := DegToSemi(v);
    InDegrees(n);
    var d := SemiToDeg(n);
    assert AbsR(d) * 2147483648.0 == 180.0 * Abs(n) as real;
  }

  lemma InDegrees(n: int)
    ensures SemiToDeg(n) * 2147483648.0 == 180.0 * n as real
    ensures AbsR(SemiToDeg(n)) * 2147483648.0 == 180.0 * Abs(n) as real
  {
  }
}
