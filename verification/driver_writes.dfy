/**
 * Verified register writes (`setEnum`, `setDouble`, `setInt`, `setBool`,
 * src/camera_driver.cpp:259-325). The vendor driver is an oracle: for each
 * request it either returns a status string and the value the camera actually
 * applied, or throws. A write is good only when the status is "OK" and the
 * applied value matches the request: exactly for enums, integers and
 * booleans, within a 2.5% relative tolerance for doubles.
 */
module DriverWrites {

  /** What one driver setter call does: return (status, applied value), or throw. */
  datatype Reply<T> = Returned(status: string, applied: T) | Threw(what: string)

  /** The driver's four typed setters, keyed by hardware node name. */
  datatype Driver = Driver(
    setEnum: (string, string) -> Reply<string>,
    setDouble: (string, real) -> Reply<real>,
    setInt: (string, int) -> Reply<int>,
    setBool: (string, bool) -> Reply<bool>)

  /** A write request sent to the driver. */
  datatype Request =
    | EnumWrite(node: string, s: string)
    | DoubleWrite(node: string, d: real)
    | IntWrite(node: string, i: int)
    | BoolWrite(node: string, b: bool)

  /** The result of a verified write: its status, or the driver exception that escaped it. */
  datatype Outcome = Verified(ok: bool) | Raised(what: string)

  /** A write the driver was asked to make, with what came of it. */
  datatype Attempt = Attempt(request: Request, outcome: Outcome)

  function Abs(x: real): (r: real)
    ensures r >= 0.0 && (r == x || r == -x)
  {
    if x < 0.0 then -x else x
  }

  /** The double check: `!(|v - retV| > 0.025 * |v + retV|)`, over the reals. */
  predicate WithinTolerance(v: real, retV: real) {
    Abs(v - retV) <= 0.025 * Abs(v + retV)
  }

  /**
   * The tolerance as an interval: a positive request passes exactly when the
   * applied value lies in [39/41 v, 41/39 v] (a negative one symmetrically),
   * and a zero request only when exactly zero was applied.
   */
  lemma ToleranceInterval(v: real, retV: real)
    ensures v > 0.0 ==> (WithinTolerance(v, retV) <==> 39.0 * v <= 41.0 * retV && 39.0 * retV <= 41.0 * v)
    ensures v < 0.0 ==> (WithinTolerance(v, retV) <==> 41.0 * retV <= 39.0 * v && 41.0 * v <= 39.0 * retV)
    ensures v == 0.0 ==> (WithinTolerance(v, retV) <==> retV == 0.0)
  {
  }

  /** The check is symmetric, always accepts the exact value, and never accepts a sign change. */
  lemma ToleranceBasics(v: real, retV: real)
    ensures WithinTolerance(v, retV) <==> WithinTolerance(retV, v)
    ensures WithinTolerance(v, v)
    ensures WithinTolerance(v, retV) && v > 0.0 ==> retV > 0.0
  {
  }

  /**
   * Measured against the request, the check admits up to about 5%: for a
   * request of 1000 the answers 952 through 1051 pass, 951 and 1052 fail.
   */
  lemma ToleranceExamples()
    ensures WithinTolerance(1000.0, 1024.0)
    ensures WithinTolerance(1000.0, 1050.0)
    ensures !WithinTolerance(1000.0, 1052.0)
    ensures WithinTolerance(1000.0, 952.0)
    ensures !WithinTolerance(1000.0, 951.0)
  {
  }

  function SetEnum(drv: Driver, node: string, v: string): (r: Outcome)
    ensures r.Raised? <==> drv.setEnum(node, v).Threw?
    ensures r == Verified(true) <==> drv.setEnum(node, v) == Returned("OK", v)
  {
    match drv.setEnum(node, v)
    case Threw(what) => Raised(what)
    case Returned(msg, retV) => Verified(msg == "OK" && v == retV)
  }

  function SetDouble(drv: Driver, node: string, v: real): (r: Outcome)
    ensures r.Raised? <==> drv.setDouble(node, v).Threw?
    ensures r == Verified(true) <==>
      drv.setDouble(node, v).Returned? && drv.setDouble(node, v).status == "OK" &&
      WithinTolerance(v, drv.setDouble(node, v).applied)
  {
    match drv.setDouble(node, v)
    case Threw(what) => Raised(what)
    case Returned(msg, retV) => Verified(msg == "OK" && !(Abs(v - retV) > 0.025 * Abs(v + retV)))
  }

  function SetInt(drv: Driver, node: string, v: int): (r: Outcome)
    ensures r.Raised? <==> drv.setInt(node, v).Threw?
    ensures r == Verified(true) <==> drv.setInt(node, v) == Returned("OK", v)
  {
    match drv.setInt(node, v)
    case Threw(what) => Raised(what)
    case Returned(msg, retV) => Verified(msg == "OK" && v == retV)
  }

  function SetBool(drv: Driver, node: string, v: bool): (r: Outcome)
    ensures r.Raised? <==> drv.setBool(node, v).Threw?
    ensures r == Verified(true) <==> drv.setBool(node, v) == Returned("OK", v)
  {
    match drv.setBool(node, v)
    case Threw(what) => Raised(what)
    case Returned(msg, retV) => Verified(msg == "OK" && v == retV)
  }

  /** Make the write a request asks for, through the matching verified setter. */
  function Perform(drv: Driver, req: Request): Outcome {
    match req
    case EnumWrite(n, s) => SetEnum(drv, n, s)
    case DoubleWrite(n, d) => SetDouble(drv, n, d)
    case IntWrite(n, i) => SetInt(drv, n, i)
    case BoolWrite(n, b) => SetBool(drv, n, b)
  }

  /** A double write the camera honoured exactly always verifies; an integer write that came back different never does. */
  lemma ExactAnswersVerify(drv: Driver, node: string, d: real, i: int)
    requires drv.setDouble(node, d) == Returned("OK", d)
    ensures Perform(drv, DoubleWrite(node, d)) == Verified(true)
    ensures drv.setInt(node, i).Returned? && drv.setInt(node, i).applied != i ==> Perform(drv, IntWrite(node, i)) == Verified(false)
  {
    ToleranceBasics(d, d);
  }
}
