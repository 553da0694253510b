/** What Client.update_devices reads from an update document
    (custom_components/freeathome/fah/pfreeathome.py:456-551): for each
    channel, the mask its current function sets, and the datapoint and
    parameter values it reports, in document order, up to the exception, if
    any, that ends the reading. Which device each report reaches is decided
    by `Synchronizer.Client.UpdateDevices`. */
module Updates {
  import opened Wrappers
  import opened PyValue
  import opened PyBits
  import opened ConfigXml

  /** One datapoint or parameter carrying a value element: its lookup key
      serial/channel/id, its id and the element's text. */
  datatype Report = Report(isParameter: bool, key: string, id: string, value: Option<string>)

  /** The reports read before the reading stopped, and why it stopped. */
  datatype Reading = Reading(reports: seq<Report>, error: Option<PyError>)

  function Then(a: Reading, b: Reading): (r: Reading)
    ensures r.reports == a.reports + (if a.error.None? then b.reports else [])
    ensures r.error == if a.error.Some? then a.error else b.error
  {
    if a.error.Some? then a else Reading(a.reports + b.reports, b.error)
  }

  /** serialnumber + '/' + channel_id + '/' + id; a missing part raises a
      TypeError. */
  function Key(serial: Option<string>, channelId: Option<string>, id: Option<string>): (r: Result<string, PyError>)
    ensures r.Ok? <==> serial.Some? && channelId.Some? && id.Some?
    ensures r.Ok? ==> r.value == serial.value + "/" + channelId.value + "/" + id.value
  {
    if serial.None? || channelId.None? || id.None? then Err(TypeError)
    else Ok(serial.value + "/" + channelId.value + "/" + id.value)
  }

  /** The datapoint filter of a channel: sensorMatchCode | actuatorMatchCode
      of the function its functionId attribute names, 0xFFFFFFFF when it
      has no functionId attribute or no such function. */
  function ChannelMask(ch: Node): (r: Result<nat, PyError>)
    ensures FirstWith(FindAll(ch, "attribute"), "name", "functionId").None? ==> r == Ok(ALL_32_BITS)
    ensures r.Ok? && r.value != ALL_32_BITS ==>
              var a := FirstWith(FindAll(ch, "attribute"), "name", "functionId");
              a.Some? && IntHex(a.value.text).Ok?
              && var f := FindPath(ch, "functions", "function", "functionId", Hex04(IntHex(a.value.text).value));
                 f.Some? && IntHex(Get(f.value, "sensorMatchCode")).Ok? && IntHex(Get(f.value, "actuatorMatchCode")).Ok?
                 && r.value == BitOr(IntHex(Get(f.value, "sensorMatchCode")).value, IntHex(Get(f.value, "actuatorMatchCode")).value)
  {
    var a := FirstWith(FindAll(ch, "attribute"), "name", "functionId");
    if a.None? then Ok(ALL_32_BITS)
    else
      var functionId :- IntHex(a.value.text);
      var f := FindPath(ch, "functions", "function", "functionId", Hex04(functionId));
      if f.None? then Ok(ALL_32_BITS)
      else
        var sensor :- IntHex(Get(f.value, "sensorMatchCode"));
        var actuator :- IntHex(Get(f.value, "actuatorMatchCode"));
        Ok(BitOr(sensor, actuator))
  }

  /** A datapoint without a match code always passes; one with a match
      code passes when it shares a bit with the mask. */
  predicate Passes(dp: Node, mask: nat)
  {
    Get(dp, "matchCode").None? || (IntHex(Get(dp, "matchCode")).Ok? && BitAnd(IntHex(Get(dp, "matchCode")).value, mask) != 0)
  }

  /** rep is what element e reports: e has a value element whose text rep
      carries, under e's id and key. */
  ghost predicate ReportOf(rep: Report, e: Node, serial: Option<string>, channelId: Option<string>)
  {
    Find(e, "value").Some? && rep.value == Find(e, "value").value.text
    && Get(e, "i") == Some(rep.id) && Key(serial, channelId, Get(e, "i")) == Ok(rep.key)
  }

  /** Every datapoint report comes from a datapoint of es that passes the
      mask. */
  ghost predicate DatapointsSound(reps: seq<Report>, es: seq<Node>, serial: Option<string>, channelId: Option<string>, mask: nat)
  {
    forall rep :: rep in reps ==>
      !rep.isParameter && exists e :: e in es && Passes(e, mask) && ReportOf(rep, e, serial, channelId)
  }

  /** Every datapoint of es that passes the mask and has a value is
      reported. */
  ghost predicate DatapointsComplete(reps: seq<Report>, es: seq<Node>, serial: Option<string>, channelId: Option<string>, mask: nat)
  {
    forall e :: e in es && Passes(e, mask) && Find(e, "value").Some? ==>
      exists rep :: rep in reps && ReportOf(rep, e, serial, channelId)
  }

  lemma DatapointStep(dps: seq<Node>, serial: Option<string>, channelId: Option<string>, mask: nat, own: seq<Report>, rest: Reading)
    requires dps != [] && Passes(dps[0], mask) && Key(serial, channelId, Get(dps[0], "i")).Ok?
    requires own == if Find(dps[0], "value").Some? then [Report(false, Key(serial, channelId, Get(dps[0], "i")).value, Get(dps[0], "i").value, Find(dps[0], "value").value.text)] else []
    requires DatapointsSound(rest.reports, dps[1..], serial, channelId, mask)
    requires rest.error.None? ==> DatapointsComplete(rest.reports, dps[1..], serial, channelId, mask)
    ensures DatapointsSound(Then(Reading(own, None), rest).reports, dps, serial, channelId, mask)
    ensures rest.error.None? ==> DatapointsComplete(Then(Reading(own, None), rest).reports, dps, serial, channelId, mask)
  {
    hide IntHex;
    var reps := Then(Reading(own, None), rest).reports;
    assert reps == own + rest.reports;
    forall rep | rep in reps
      ensures !rep.isParameter && exists e :: e in dps && Passes(e, mask) && ReportOf(rep, e, serial, channelId)
    {
      if rep in own {
        assert ReportOf(rep, dps[0], serial, channelId) && dps[0] in dps;
      } else {
        var e :| e in dps[1..] && Passes(e, mask) && ReportOf(rep, e, serial, channelId);
        assert e in dps;
      }
    }
    if rest.error.None? {
      forall e | e in dps && Passes(e, mask) && Find(e, "value").Some?
        ensures exists rep :: rep in reps && ReportOf(rep, e, serial, channelId)
      {
        if e == dps[0] {
          assert own[0] in reps && ReportOf(own[0], e, serial, channelId);
        } else {
          assert e in dps[1..];
          var rep :| rep in rest.reports && ReportOf(rep, e, serial, channelId);
          assert rep in reps;
        }
      }
    }
  }

  /** The datapoint loop of one channel: a match code that is not
      hexadecimal, or a key with a missing part, ends the reading. */
  function DatapointReports(dps: seq<Node>, serial: Option<string>, channelId: Option<string>, mask: nat): (r: Reading)
    ensures DatapointsSound(r.reports, dps, serial, channelId, mask)
    ensures r.error.None? ==> DatapointsComplete(r.reports, dps, serial, channelId, mask)
  {
    if dps == [] then Reading([], None)
    else
      var dp := dps[0];
      var rest := DatapointReports(dps[1..], serial, channelId, mask);
      var code := IntHex(Get(dp, "matchCode"));
      if Get(dp, "matchCode").Some? && code.Err? then Reading([], Some(code.error))
      else if !Passes(dp, mask) then
        assert forall x :: x in dps[1..] ==> x in dps;
        assert forall x :: x in dps ==> x == dp || x in dps[1..];
        rest
      else
        var key := Key(serial, channelId, Get(dp, "i"));
        if key.Err? then Reading([], Some(key.error))
        else
          var v := Find(dp, "value");
          var own := if v.Some? then [Report(false, key.value, Get(dp, "i").value, v.value.text)] else [];
          DatapointStep(dps, serial, channelId, mask, own, rest);
          Then(Reading(own, None), rest)
  }

  /** Every parameter report comes from a parameter of ps. */
  ghost predicate ParametersSound(reps: seq<Report>, ps: seq<Node>, serial: Option<string>, channelId: Option<string>)
  {
    forall rep :: rep in reps ==> rep.isParameter && exists p :: p in ps && ReportOf(rep, p, serial, channelId)
  }

  /** Every parameter of ps that has a value is reported. */
  ghost predicate ParametersComplete(reps: seq<Report>, ps: seq<Node>, serial: Option<string>, channelId: Option<string>)
  {
    forall p :: p in ps && Find(p, "value").Some? ==> exists rep :: rep in reps && ReportOf(rep, p, serial, channelId)
  }

  lemma ParameterStep(ps: seq<Node>, serial: Option<string>, channelId: Option<string>, own: seq<Report>, rest: Reading)
    requires ps != [] && Key(serial, channelId, Get(ps[0], "i")).Ok?
    requires own == if Find(ps[0], "value").Some? then [Report(true, Key(serial, channelId, Get(ps[0], "i")).value, Get(ps[0], "i").value, Find(ps[0], "value").value.text)] else []
    requires ParametersSound(rest.reports, ps[1..], serial, channelId)
    requires rest.error.None? ==> ParametersComplete(rest.reports, ps[1..], serial, channelId)
    ensures ParametersSound(Then(Reading(own, None), rest).reports, ps, serial, channelId)
    ensures rest.error.None? ==> ParametersComplete(Then(Reading(own, None), rest).reports, ps, serial, channelId)
  {
    var reps := Then(Reading(own, None), rest).reports;
    assert reps == own + rest.reports;
    forall rep | rep in reps
      ensures rep.isParameter && exists p :: p in ps && ReportOf(rep, p, serial, channelId)
    {
      if rep in own {
        assert ReportOf(rep, ps[0], serial, channelId) && ps[0] in ps;
      } else {
        var p :| p in ps[1..] && ReportOf(rep, p, serial, channelId);
        assert p in ps;
      }
    }
    if rest.error.None? {
      forall p | p in ps && Find(p, "value").Some?
        ensures exists rep :: rep in reps && ReportOf(rep, p, serial, channelId)
      {
        if p == ps[0] {
          assert own[0] in reps && ReportOf(own[0], p, serial, channelId);
        } else {
          assert p in ps[1..];
          var rep :| rep in rest.reports && ReportOf(rep, p, serial, channelId);
          assert rep in reps;
        }
      }
    }
  }

  /** The parameter loop of one channel: no match-code filter, so it raises
      exactly when some parameter's key has a missing part. */
  function ParameterReports(ps: seq<Node>, serial: Option<string>, channelId: Option<string>): (r: Reading)
    ensures ParametersSound(r.reports, ps, serial, channelId)
    ensures r.error.None? ==> ParametersComplete(r.reports, ps, serial, channelId)
    ensures r.error.None? <==> forall p :: p in ps ==> Key(serial, channelId, Get(p, "i")).Ok?
    ensures r.error.Some? ==> r.error == Some(TypeError)
  {
    if ps == [] then Reading([], None)
    else
      var p := ps[0];
      var rest := ParameterReports(ps[1..], serial, channelId);
      assert forall x :: x in ps[1..] ==> x in ps;
      assert forall x :: x in ps ==> x == p || x in ps[1..];
      var key := Key(serial, channelId, Get(p, "i"));
      if key.Err? then Reading([], Some(key.error))
      else
        var v := Find(p, "value");
        var own := if v.Some? then [Report(true, key.value, Get(p, "i").value, v.value.text)] else [];
        ParameterStep(ps, serial, channelId, own, rest);
        Then(Reading(own, None), rest)
  }

  /** One channel: its datapoints, below it at any depth, then its
      parameters; unless it raised, every datapoint that passes the mask
      and every parameter with a value is reported. */
  function ChannelReports(ch: Node, serial: Option<string>): (r: Reading)
    ensures forall rep :: rep in r.reports && !rep.isParameter ==>
              ChannelMask(ch).Ok?
              && exists dp :: dp in Descendants(ch, "dataPoint") && Passes(dp, ChannelMask(ch).value)
                              && ReportOf(rep, dp, serial, Get(ch, "i"))
    ensures forall rep :: rep in r.reports && rep.isParameter ==>
              exists p :: p in Descendants(ch, "parameter") && ReportOf(rep, p, serial, Get(ch, "i"))
    ensures r.error.None? ==>
              ChannelMask(ch).Ok?
              && DatapointsComplete(r.reports, Descendants(ch, "dataPoint"), serial, Get(ch, "i"), ChannelMask(ch).value)
              && ParametersComplete(r.reports, Descendants(ch, "parameter"), serial, Get(ch, "i"))
  {
    var mask := ChannelMask(ch);
    if mask.Err? then Reading([], Some(mask.error))
    else
      var dps := DatapointReports(Descendants(ch, "dataPoint"), serial, Get(ch, "i"), mask.value);
      var ps := ParameterReports(Descendants(ch, "parameter"), serial, Get(ch, "i"));
      assert forall rep :: rep in dps.reports ==> !rep.isParameter;
      Then(dps, ps)
  }

  /** The channel loop of one device: every report comes from one of the
      channels and, unless the loop raised, every channel's reports are
      all there. */
  function ChannelsReports(chs: seq<Node>, serial: Option<string>): (r: Reading)
    ensures forall rep :: rep in r.reports ==> exists ch :: ch in chs && rep in ChannelReports(ch, serial).reports
    ensures r.error.None? ==>
              forall ch :: ch in chs ==>
                ChannelReports(ch, serial).error.None? && forall rep :: rep in ChannelReports(ch, serial).reports ==> rep in r.reports
  {
    if chs == [] then Reading([], None)
    else
      assert forall x :: x in chs[1..] ==> x in chs;
      assert forall x :: x in chs ==> x == chs[0] || x in chs[1..];
      Then(ChannelReports(chs[0], serial), ChannelsReports(chs[1..], serial))
  }

  /** One device: nothing for a device without channels, otherwise the
      reports of its channels under its serial number. */
  function DeviceReports(d: Node): (r: Reading)
    ensures Find(d, "channels").None? ==> r == Reading([], None)
    ensures Find(d, "channels").Some? ==>
              forall rep :: rep in r.reports ==>
                exists ch :: ch in FindAll(Find(d, "channels").value, "channel")
                             && rep in ChannelReports(ch, Get(d, "serialNumber")).reports
    ensures Find(d, "channels").Some? && r.error.None? ==>
              forall ch :: ch in FindAll(Find(d, "channels").value, "channel") ==>
                ChannelReports(ch, Get(d, "serialNumber")).error.None?
                && forall rep :: rep in ChannelReports(ch, Get(d, "serialNumber")).reports ==> rep in r.reports
  {
    var channels := Find(d, "channels");
    if channels.None? then Reading([], None)
    else ChannelsReports(FindAll(channels.value, "channel"), Get(d, "serialNumber"))
  }

  /** The device loop: every report comes from one of the devices and,
      unless the loop raised, every device's reports are all there. */
  function DevicesReports(ds: seq<Node>): (r: Reading)
    ensures forall rep :: rep in r.reports ==> exists d :: d in ds && rep in DeviceReports(d).reports
    ensures r.error.None? ==>
              forall d :: d in ds ==> DeviceReports(d).error.None? && forall rep :: rep in DeviceReports(d).reports ==> rep in r.reports
  {
    if ds == [] then Reading([], None)
    else
      assert forall x :: x in ds[1..] ==> x in ds;
      assert forall x :: x in ds ==> x == ds[0] || x in ds[1..];
      Then(DeviceReports(ds[0]), DevicesReports(ds[1..]))
  }

  /** The document: one without a devices element raises an
      AttributeError; otherwise the reports of its devices. */
  function Read(root: Node): (r: Reading)
    ensures Find(root, "devices").None? ==> r == Reading([], Some(AttributeError))
  {
    var devices := Find(root, "devices");
    if devices.None? then Reading([], Some(AttributeError)) else DevicesReports(FindAll(devices.value, "device"))
  }

  /** Every report of the document comes from one of its devices, and when
      reading ends without an exception every device's reports are all
      there. */
  lemma ReadReports(root: Node)
    requires Find(root, "devices").Some?
    ensures forall rep :: rep in Read(root).reports ==>
              exists d :: d in FindAll(Find(root, "devices").value, "device") && rep in DeviceReports(d).reports
    ensures Read(root).error.None? ==>
              forall d :: d in FindAll(Find(root, "devices").value, "device") ==>
                forall rep :: rep in DeviceReports(d).reports ==> rep in Read(root).reports
  {
  }

  /** Under the default mask a datapoint with a match code is read exactly
      when the low 32 bits of its match code are not all zero; with a
      function's mask, exactly when it shares a bit with the sensor or the
      actuator match code. */
  lemma MatchCodeFilter(dp: Node, sensor: nat, actuator: nat)
    requires IntHex(Get(dp, "matchCode")).Ok?
    ensures Passes(dp, ALL_32_BITS) <==> IntHex(Get(dp, "matchCode")).value % 0x1_0000_0000 != 0
    ensures Passes(dp, BitOr(sensor, actuator)) <==>
              BitAnd(IntHex(Get(dp, "matchCode")).value, sensor) != 0 || BitAnd(IntHex(Get(dp, "matchCode")).value, actuator) != 0
  {
    DefaultMask(IntHex(Get(dp, "matchCode")).value);
    AndOrZero(IntHex(Get(dp, "matchCode")).value, sensor, actuator);
  }
}
