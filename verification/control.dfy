/**
 * The control channel (`controlCallback`, src/camera_driver.cpp:398-443):
 * exposure time and gain are written as doubles to the nodes registered under
 * "exposure_time" and "gain", but only when they differ from the last values
 * written, which a small cache remembers. One try block covers both writes.
 */
module Control {
  import opened ParameterFile
  import opened DriverWrites

  /** The values a `uint32_t` holds. */
  newtype uint32 = x: int | 0 <= x < 0x1_0000_0000

  /** `std::numeric_limits<float>::lowest()`: a gain of exactly this value asks for no gain change. */
  const FloatLowest: real := -340282346638528859811704183484516925440.0

  /** A control message: exposure time in microseconds (0: no change) and gain in dB. */
  datatype ControlMessage = ControlMessage(exposureTime: uint32, gain: real)

  /** `currentExposureTime_` and `currentGain_`. */
  datatype ControlCache = ControlCache(exposureTime: uint32, gain: real)

  /** The cache after a message, and the writes the message made, in order. */
  datatype ControlEffect = ControlEffect(cache: ControlCache, attempts: seq<Attempt>)

  predicate WantsExposure(c: ControlCache, msg: ControlMessage, params: map<string, NodeInfo>) {
    msg.exposureTime > 0 && msg.exposureTime != c.exposureTime && "exposure_time" in params
  }

  predicate WantsGain(c: ControlCache, msg: ControlMessage, params: map<string, NodeInfo>) {
    msg.gain > FloatLowest && msg.gain != c.gain && "gain" in params
  }

  function ExposureRequest(params: map<string, NodeInfo>, msg: ControlMessage): Request
    requires "exposure_time" in params
  {
    DoubleWrite(params["exposure_time"].name, msg.exposureTime as real)
  }

  function GainRequest(params: map<string, NodeInfo>, msg: ControlMessage): Request
    requires "gain" in params
  {
    DoubleWrite(params["gain"].name, msg.gain)
  }

  /** The gain half; `done` are the writes the exposure half made. */
  function ApplyGain(c: ControlCache, msg: ControlMessage, params: map<string, NodeInfo>, drv: Driver,
                     done: seq<Attempt>): ControlEffect
  {
    if WantsGain(c, msg, params) then
      var req := GainRequest(params, msg);
      var out := Perform(drv, req);
      ControlEffect(if out.Raised? then c else c.(gain := msg.gain), done + [Attempt(req, out)])
    else ControlEffect(c, done)
  }

  /**
   * `controlCallback`. The cache is updated once a write returns, whatever its
   * verdict; an exception in the exposure write skips the gain write.
   */
  function ApplyControl(c: ControlCache, msg: ControlMessage, params: map<string, NodeInfo>, drv: Driver): (e: ControlEffect)
    ensures |e.attempts| <= 2
    ensures forall i :: 0 <= i < |e.attempts| ==> e.attempts[i].request.DoubleWrite?
  {
    if WantsExposure(c, msg, params) then
      var req := ExposureRequest(params, msg);
      var out := Perform(drv, req);
      if out.Raised? then ControlEffect(c, [Attempt(req, out)])
      else ApplyGain(c.(exposureTime := msg.exposureTime), msg, params, drv, [Attempt(req, out)])
    else ApplyGain(c, msg, params, drv, [])
  }

  predicate NoneRaised(attempts: seq<Attempt>) {
    forall i :: 0 <= i < |attempts| ==> !attempts[i].outcome.Raised?
  }

  /**
   * Which writes a message makes: the exposure write exactly when it is wanted,
   * then the gain write exactly when it is wanted and the exposure write did not throw.
   */
  lemma ControlWrites(c: ControlCache, msg: ControlMessage, params: map<string, NodeInfo>, drv: Driver)
    ensures WantsExposure(c, msg, params) ==>
      var expo := Attempt(ExposureRequest(params, msg), Perform(drv, ExposureRequest(params, msg)));
      var e := ApplyControl(c, msg, params, drv);
      && (expo.outcome.Raised? ==> e == ControlEffect(c, [expo]))
      && (!expo.outcome.Raised? && WantsGain(c, msg, params) ==>
            e.attempts == [expo, Attempt(GainRequest(params, msg), Perform(drv, GainRequest(params, msg)))])
      && (!expo.outcome.Raised? && !WantsGain(c, msg, params) ==> e.attempts == [expo])
    ensures !WantsExposure(c, msg, params) && WantsGain(c, msg, params) ==>
      ApplyControl(c, msg, params, drv).attempts == [Attempt(GainRequest(params, msg), Perform(drv, GainRequest(params, msg)))]
    ensures !WantsExposure(c, msg, params) && !WantsGain(c, msg, params) ==>
      ApplyControl(c, msg, params, drv) == ControlEffect(c, [])
  {
    var c' := c.(exposureTime := msg.exposureTime);
    assert WantsGain(c', msg, params) == WantsGain(c, msg, params);
  }

  /**
   * Each cached value becomes the message's value exactly when its write was
   * made and returned (verified or not), and otherwise stays as it was. The
   * exposure value is cached even when the gain write then throws.
   */
  lemma ControlCacheUpdate(c: ControlCache, msg: ControlMessage, params: map<string, NodeInfo>, drv: Driver)
    ensures var e := ApplyControl(c, msg, params, drv);
      var expoThrew := WantsExposure(c, msg, params) && Perform(drv, ExposureRequest(params, msg)).Raised?;
      var gainMade := WantsGain(c, msg, params) && !expoThrew;
      && e.cache.exposureTime == (if WantsExposure(c, msg, params) && !expoThrew then msg.exposureTime else c.exposureTime)
      && e.cache.gain == (if gainMade && !Perform(drv, GainRequest(params, msg)).Raised? then msg.gain else c.gain)
      && (NoneRaised(e.attempts) && WantsExposure(c, msg, params) ==> e.cache.exposureTime == msg.exposureTime)
      && (NoneRaised(e.attempts) && WantsGain(c, msg, params) ==> e.cache.gain == msg.gain)
  {
    var e := ApplyControl(c, msg, params, drv);
    var c' := c.(exposureTime := msg.exposureTime);
    assert WantsGain(c', msg, params) == WantsGain(c, msg, params);
    if WantsExposure(c, msg, params) {
      var expo := Attempt(ExposureRequest(params, msg), Perform(drv, ExposureRequest(params, msg)));
      assert e.attempts[0] == expo;
      if !expo.outcome.Raised? && WantsGain(c, msg, params) {
        assert e.attempts[1].request == GainRequest(params, msg);
      }
    } else if WantsGain(c, msg, params) {
      assert e.attempts[0].request == GainRequest(params, msg);
    }
  }

  /**
   * Repeating a message whose writes all returned (verified or not) makes no
   * second write and leaves the cache as it is.
   */
  lemma ControlIdempotent(c: ControlCache, msg: ControlMessage, params: map<string, NodeInfo>, drv: Driver)
    requires NoneRaised(ApplyControl(c, msg, params, drv).attempts)
    ensures var e := ApplyControl(c, msg, params, drv);
      ApplyControl(e.cache, msg, params, drv) == ControlEffect(e.cache, [])
  {
    var e := ApplyControl(c, msg, params, drv);
    ControlCacheUpdate(c, msg, params, drv);
    assert !WantsExposure(e.cache, msg, params);
    assert !WantsGain(e.cache, msg, params);
  }

  /** When the exposure write throws, the cache is untouched, so the same message tries again. */
  lemma ControlRetriesAfterException(c: ControlCache, msg: ControlMessage, params: map<string, NodeInfo>, drv: Driver)
    requires WantsExposure(c, msg, params)
    requires drv.setDouble(params["exposure_time"].name, msg.exposureTime as real).Threw?
    ensures ApplyControl(c, msg, params, drv).cache == c
    ensures |ApplyControl(c, msg, params, drv).attempts| == 1
    ensures ApplyControl(ApplyControl(c, msg, params, drv).cache, msg, params, drv) == ApplyControl(c, msg, params, drv)
  {
  }

  /**
   * With both names defined and a driver that answers, exposure 5000 with the
   * gain sentinel writes only the exposure; then exposure 5000 with gain 2.0
   * writes only the gain.
   */
  lemma ControlScenario(c: ControlCache, params: map<string, NodeInfo>, drv: Driver)
    requires "exposure_time" in params && "gain" in params
    requires c.exposureTime != 5000 && c.gain != 2.0
    requires drv.setDouble(params["exposure_time"].name, 5000.0).Returned?
    requires drv.setDouble(params["gain"].name, 2.0).Returned?
    ensures var first := ApplyControl(c, ControlMessage(5000, FloatLowest), params, drv);
      var second := ApplyControl(first.cache, ControlMessage(5000, 2.0), params, drv);
      && |first.attempts| == 1 && first.attempts[0].request == DoubleWrite(params["exposure_time"].name, 5000.0)
      && |second.attempts| == 1 && second.attempts[0].request == DoubleWrite(params["gain"].name, 2.0)
      && second.cache == ControlCache(5000, 2.0)
  {
    var first := ApplyControl(c, ControlMessage(5000, FloatLowest), params, drv);
    assert first.cache == c.(exposureTime := 5000);
  }
}
