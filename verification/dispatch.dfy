/**
 * Applying parameter updates (`setParameter`, `parameterChanged`,
 * src/camera_driver.cpp:327-396): each update for a known name is coerced
 * according to the node's type and written through the verified setters;
 * driver exceptions are caught per update, and the host is always told that
 * the update succeeded.
 */
module Dispatch {
  import opened Wrappers
  import opened ParameterFile
  import opened ParameterValues
  import opened DriverWrites

  /** `SetParametersResult`. */
  datatype SetParametersResult = SetParametersResult(successful: bool, reason: string)

  /** The write `setParameter` makes for a value of a node, or None when it makes none. */
  function WriteRequest(ni: NodeInfo, v: Value, formatDouble: real -> string): Option<Request> {
    match ni.nodeType
    case EnumNode => Some(EnumWrite(ni.name, RemoveQuotes(ValueToString(v, formatDouble))))
    case FloatNode =>
      var bd := DoubleIntParam(v);
      if bd.0 then Some(DoubleWrite(ni.name, bd.1)) else None
    case IntNode =>
      var bd := DoubleIntParam(v);
      if bd.0 then Some(IntWrite(ni.name, TruncateToInt(bd.1))) else None
    case BoolNode =>
      var bb := BoolIntParam(v);
      if bb.0 then Some(BoolWrite(ni.name, bb.1)) else None
    case InvalidNode => None
  }

  /** Dispatch by node type, value by value. */
  lemma DispatchByType(ni: NodeInfo, v: Value, formatDouble: real -> string)
    ensures ni.nodeType == EnumNode ==>
      WriteRequest(ni, v, formatDouble) == Some(EnumWrite(ni.name, RemoveQuotes(ValueToString(v, formatDouble))))
    ensures ni.nodeType == EnumNode && v.Str? ==>
      WriteRequest(ni, v, formatDouble) == Some(EnumWrite(ni.name, RemoveQuotes(v.s)))
    ensures ni.nodeType == FloatNode ==>
      WriteRequest(ni, v, formatDouble) ==
        if v.Double? then Some(DoubleWrite(ni.name, v.d))
        else if v.Integer? then Some(DoubleWrite(ni.name, v.i as real))
        else None
    ensures ni.nodeType == IntNode ==>
      WriteRequest(ni, v, formatDouble) ==
        if v.Double? then Some(IntWrite(ni.name, TruncateToInt(v.d)))
        else if v.Integer? then Some(IntWrite(ni.name, v.i))
        else None
    ensures ni.nodeType == BoolNode ==>
      WriteRequest(ni, v, formatDouble) ==
        if v.Bool? then Some(BoolWrite(ni.name, v.b))
        else if v.Integer? then Some(BoolWrite(ni.name, v.i != 0))
        else None
    ensures ni.nodeType == InvalidNode ==> WriteRequest(ni, v, formatDouble) == None
  {
    match ni.nodeType {
      case IntNode =>
        if v.Integer? { TruncateWhole(v.i); }
      case _ =>
    }
  }

  /** Every write goes to the node's own hardware name, and an enum value never carries a quote. */
  lemma WriteRequestTarget(ni: NodeInfo, v: Value, formatDouble: real -> string)
    ensures WriteRequest(ni, v, formatDouble).Some? ==> WriteRequest(ni, v, formatDouble).value.node == ni.name
    ensures WriteRequest(ni, v, formatDouble).Some? && WriteRequest(ni, v, formatDouble).value.EnumWrite? ==>
      '"' !in WriteRequest(ni, v, formatDouble).value.s
  {
  }

  /**
   * One update in `parameterChanged`: unknown names, updates while no driver
   * exists and NOT_SET values are skipped; otherwise the write is made and its
   * outcome, exception included, recorded.
   */
  function AttemptFor(params: map<string, NodeInfo>, hasDriver: bool, p: Parameter, drv: Driver,
                      formatDouble: real -> string): Option<Attempt>
  {
    if p.name !in params || !hasDriver || p.value.NotSet? then None
    else
      match WriteRequest(params[p.name], p.value, formatDouble)
      case None => None
      case Some(req) => Some(Attempt(req, Perform(drv, req)))
  }

  /** The writes a batch of updates makes, in order. */
  function UpdateAttempts(params: map<string, NodeInfo>, hasDriver: bool, ps: seq<Parameter>, drv: Driver,
                          formatDouble: real -> string): (r: seq<Attempt>)
    ensures |r| <= |ps|
  {
    if ps == [] then []
    else
      var a := AttemptFor(params, hasDriver, ps[|ps| - 1], drv, formatDouble);
      UpdateAttempts(params, hasDriver, ps[..|ps| - 1], drv, formatDouble) + if a.Some? then [a.value] else []
  }

  /** With no driver, no update writes anything. */
  lemma {:induction false} NoDriverNoWrites(params: map<string, NodeInfo>, ps: seq<Parameter>, drv: Driver,
                                            formatDouble: real -> string)
    ensures UpdateAttempts(params, false, ps, drv, formatDouble) == []
  {
    if ps != [] {
      NoDriverNoWrites(params, ps[..|ps| - 1], drv, formatDouble);
    }
  }

  /**
   * Updates are handled one by one: the writes of a batch are those of its
   * parts, so an exception or a failed write in one update leaves the later
   * ones untouched.
   */
  lemma {:induction false} UpdateAttemptsAppend(params: map<string, NodeInfo>, hasDriver: bool,
                                                ps: seq<Parameter>, qs: seq<Parameter>, drv: Driver,
                                                formatDouble: real -> string)
    ensures UpdateAttempts(params, hasDriver, ps + qs, drv, formatDouble) ==
      UpdateAttempts(params, hasDriver, ps, drv, formatDouble) + UpdateAttempts(params, hasDriver, qs, drv, formatDouble)
    decreases |qs|
  {
    if qs == [] {
      assert ps + qs == ps;
    } else {
      var pq := ps + qs;
      assert pq[..|pq| - 1] == ps + qs[..|qs| - 1];
      assert pq[|pq| - 1] == qs[|qs| - 1];
      UpdateAttemptsAppend(params, hasDriver, ps, qs[..|qs| - 1], drv, formatDouble);
    }
  }

  /** A single update writes exactly when its name is known, a driver exists, and its value fits the node. */
  lemma SingleUpdate(params: map<string, NodeInfo>, hasDriver: bool, p: Parameter, drv: Driver,
                     formatDouble: real -> string)
    ensures p.name !in params || !hasDriver || p.value.NotSet? ==> UpdateAttempts(params, hasDriver, [p], drv, formatDouble) == []
    ensures p.name in params && hasDriver && !p.value.NotSet? && WriteRequest(params[p.name], p.value, formatDouble).Some? ==>
      var req := WriteRequest(params[p.name], p.value, formatDouble).value;
      UpdateAttempts(params, hasDriver, [p], drv, formatDouble) == [Attempt(req, Perform(drv, req))]
    ensures p.name in params && WriteRequest(params[p.name], p.value, formatDouble).None? ==>
      UpdateAttempts(params, hasDriver, [p], drv, formatDouble) == []
  {
    assert [p][..0] == [];
  }
}
