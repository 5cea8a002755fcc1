/**
 * The driver node's own state (`CameraDriver`, src/camera_driver.cpp) and the
 * operations that update it in place. Each method is proved against the value
 * model of its component: `Acquisition` for the frame buffer and the counters,
 * `ParameterFile` for the registry, `Dispatch` for parameter updates and
 * `Control` for the control channel. Threads, the mutex and the condition
 * variable are not modelled: each method runs to completion on its own.
 */
module CameraNode {
  import opened Wrappers
  import opened QuotedTokens
  import opened ParameterFile
  import opened ParameterValues
  import opened DriverWrites
  import opened Dispatch
  import opened Control
  import opened Acquisition

  /** What `doPublish` sends out for one frame. */
  datatype Publication = Publication(stamp: int, encoding: string, imagePublished: bool, metaPublished: bool)

  class CameraDriver {
    var imageQueue: seq<Frame>
    var droppedCount: nat
    var publishedCount: nat
    var parameterList: seq<string>
    var parameterMap: map<string, NodeInfo>
    var currentExposureTime: uint32
    var currentGain: real
    var cameraRunning: bool
    /** Whether `driver_` holds a driver. */
    var hasDriver: bool

    /** The frame buffer never holds more than two frames. */
    ghost predicate Valid()
      reads this
    {
      |imageQueue| <= QueueCapacity
    }

    function Queue(): QueueState
      reads this
    {
      QueueState(imageQueue, droppedCount)
    }

    function Params(): Registry
      reads this
    {
      Registry(parameterList, parameterMap)
    }

    function Cache(): ControlCache
      reads this
    {
      ControlCache(currentExposureTime, currentGain)
    }

    /** The state before `start()`: nothing buffered or counted, no parameters, no driver. */
    constructor()
      ensures Valid()
      ensures Queue() == EmptyQueue && publishedCount == 0
      ensures Params() == Registry([], map[])
      ensures Cache() == ControlCache(0, FloatLowest)
      ensures !cameraRunning && !hasDriver
    {
      imageQueue, droppedCount, publishedCount := [], 0, 0;
      parameterList, parameterMap := [], map[];
      currentExposureTime, currentGain := 0, FloatLowest;
      cameraRunning, hasDriver := false, false;
    }

    /** `publishImage`: the driver's frame callback. */
    method PublishImage(im: Frame)
      requires Valid()
      modifies this`imageQueue, this`droppedCount
      ensures Valid()
      ensures Queue() == Offer(old(Queue()), im)
    {
      if |imageQueue| < QueueCapacity {
        imageQueue := imageQueue + [im];
      } else {
        droppedCount := droppedCount + 1;
      }
    }

    /** The locked section of `run`, once a frame is waiting or the wait gave up. */
    method TakeImage() returns (img: Option<Frame>)
      requires Valid()
      modifies this`imageQueue
      ensures Valid()
      ensures (img, Queue()) == Take(old(Queue()))
    {
      img := None;
      if imageQueue != [] {
        img := Some(imageQueue[|imageQueue| - 1]);
        imageQueue := imageQueue[..|imageQueue| - 1];
      }
    }

    /**
     * `doPublish`. Whether anyone subscribes to the image and to the metadata,
     * and whether filling the image message succeeded, come from the
     * middleware.
     */
    method DoPublish(im: Frame, imageSubscribed: bool, fillSucceeded: bool, metaSubscribed: bool)
      returns (pub: Publication)
      modifies this`publishedCount
      ensures pub.stamp == im.imageTime && pub.encoding == RosEncoding(im.pixelFormat)
      ensures pub.imagePublished == (imageSubscribed && fillSucceeded)
      ensures pub.metaPublished == metaSubscribed
      ensures publishedCount == old(publishedCount) + if pub.imagePublished then 1 else 0
    {
      var encoding := RosEncoding(im.pixelFormat);
      var imagePublished := false;
      if imageSubscribed {
        if fillSucceeded {
          imagePublished := true;
          publishedCount := publishedCount + 1;
        }
      }
      pub := Publication(im.imageTime, encoding, imagePublished, metaSubscribed);
    }

    /** The counter logic of `printStatus`: report the drop ratio and reset, or do nothing without a driver. */
    method PrintStatus() returns (dropRate: Option<real>)
      modifies this`droppedCount, this`publishedCount
      ensures old(hasDriver) ==> dropRate == Some(DropRate(old(droppedCount), old(publishedCount)))
      ensures old(hasDriver) ==> droppedCount == 0 && publishedCount == 0
      ensures !old(hasDriver) ==> dropRate == None
      ensures !old(hasDriver) ==> droppedCount == old(droppedCount) && publishedCount == old(publishedCount)
    {
      if hasDriver {
        var rate := if publishedCount > 0 then (droppedCount as real) / (publishedCount as real) else 0.0;
        dropRate := Some(rate);
        droppedCount := 0;
        publishedCount := 0;
      } else {
        dropRate := None;
      }
    }

    /**
     * `readParameterFile`. The file is given as its lines, or None when it
     * cannot be opened.
     */
    method ReadParameterFile(file: Option<seq<string>>) returns (ok: bool)
      modifies this`parameterList, this`parameterMap
      ensures ok <==> file.Some?
      ensures ok ==> Params() == Load(old(Params()), file.value)
      ensures !ok ==> Params() == old(Params())
    {
      if file.None? {
        return false;
      }
      var lines := file.value;
      ghost var before := Params();
      for i := 0 to |lines|
        invariant Params() == RegisterAll(before, Definitions(lines[..i]))
      {
        LoadStep(before, lines, i);
        var tokens := TokenizeLine(lines[i]);
        ghost var kind := ParseLine(tokens);
        if tokens != [] {
          if tokens[0] != [] && tokens[0][0] == '#' {
            assert kind.Comment?;
            continue;
          }
          if |tokens| != 3 {
            assert kind.Malformed?;
            continue;
          }
          assert kind == Definition(tokens[0], NodeInfo(tokens[2], NodeTypeOf(tokens[1])));
          ghost var prev := Params();
          if tokens[0] !in parameterMap {
            parameterMap := parameterMap[tokens[0] := NodeInfo(tokens[2], NodeTypeOf(tokens[1]))];
          }
          parameterList := parameterList + [tokens[0]];
          assert Params() == Register(prev, kind.exposed, kind.info);
        } else {
          assert kind.Blank?;
        }
      }
      assert lines[..|lines|] == lines;
      return true;
    }

    /** `parameterChanged`: apply a batch of updates; the host is always told they succeeded. */
    method ParameterChanged(params: seq<Parameter>, drv: Driver, formatDouble: real -> string)
      returns (res: SetParametersResult, attempts: seq<Attempt>)
      ensures attempts == UpdateAttempts(parameterMap, hasDriver, params, drv, formatDouble)
      ensures res == SetParametersResult(true, "all good!")
    {
      attempts := [];
      for i := 0 to |params|
        invariant attempts == UpdateAttempts(parameterMap, hasDriver, params[..i], drv, formatDouble)
      {
        assert params[..i + 1][..i] == params[..i];
        var p := params[i];
        if p.name !in parameterMap {
          continue;
        }
        if !hasDriver {
          continue;
        }
        var ni := parameterMap[p.name];
        if p.value.NotSet? {
          continue;
        }
        var req := WriteRequest(ni, p.value, formatDouble);
        if req.Some? {
          attempts := attempts + [Attempt(req.value, Perform(drv, req.value))];
        }
      }
      assert params[..|params|] == params;
      res := SetParametersResult(true, "all good!");
    }

    /** `controlCallback`. */
    method ControlCallback(msg: ControlMessage, drv: Driver) returns (attempts: seq<Attempt>)
      modifies this`currentExposureTime, this`currentGain
      ensures ControlEffect(Cache(), attempts) == ApplyControl(old(Cache()), msg, parameterMap, drv)
    {
      attempts := [];
      if msg.exposureTime > 0 && msg.exposureTime != currentExposureTime {
        if "exposure_time" in parameterMap {
          var ni := parameterMap["exposure_time"];
          var req := DoubleWrite(ni.name, msg.exposureTime as real);
          var out := SetDouble(drv, ni.name, msg.exposureTime as real);
          attempts := attempts + [Attempt(req, out)];
          if out.Raised? {
            return;
          }
          currentExposureTime := msg.exposureTime;
        }
      }
      if msg.gain > FloatLowest && msg.gain != currentGain {
        if "gain" in parameterMap {
          var ni := parameterMap["gain"];
          var req := DoubleWrite(ni.name, msg.gain);
          var out := SetDouble(drv, ni.name, msg.gain);
          attempts := attempts + [Attempt(req, out)];
          if out.Raised? {
            return;
          }
          currentGain := msg.gain;
        }
      }
    }

    /** The `driver_ = std::make_shared<Driver>()` step of `start()`. */
    method AttachDriver()
      modifies this`hasDriver
      ensures hasDriver
    {
      hasDriver := true;
    }

    /** `driver_.reset()` in the destructor. */
    method ReleaseDriver()
      modifies this`hasDriver
      ensures !hasDriver
    {
      hasDriver := false;
    }

    /** `startCamera`; `driverStarted` is what the driver's `startCamera` returns. */
    method StartCamera(driverStarted: bool)
      requires hasDriver
      modifies this`cameraRunning
      ensures old(cameraRunning) ==> cameraRunning
      ensures !old(cameraRunning) ==> cameraRunning == driverStarted
    {
      if !cameraRunning {
        cameraRunning := driverStarted;
      }
    }

    /** `stopCamera`; `driverStopped` is what the driver's `stopCamera` returns. */
    method StopCamera(driverStopped: bool) returns (stopped: bool)
      modifies this`cameraRunning
      ensures old(cameraRunning) && hasDriver ==> !cameraRunning && stopped == driverStopped
      ensures !(old(cameraRunning) && hasDriver) ==> cameraRunning == old(cameraRunning) && !stopped
    {
      if cameraRunning && hasDriver {
        cameraRunning := false;
        return driverStopped;
      }
      return false;
    }
  }
}
