/**
 * `static_camera_info::select_mode`: find the mode a subdevice must be put
 * into so that it serves every enabled request mapped to it.
 *
 * The search walks the mode catalog in declaration order, so a camera
 * model lists its preferred modes first. The result is the index of the
 * chosen catalog entry (`select_mode` returns a pointer into the catalog) or
 * `None` (the null pointer) when no entry qualifies.
 */
module Selection {

  import opened Wrappers
  import opened CameraInfo

  /** Every enabled request mapped to `subdevice` is offered by some stream mode of `m`. */
  predicate ServesAll(info: StaticCameraInfo, requests: seq<StreamRequest>, subdevice: int, m: SubdeviceMode)
    requires |requests| == |info.streamSubdevices|
  {
    forall s :: 0 <= s < |requests| && Relevant(info, requests, subdevice, s) ==>
      exists k :: 0 <= k < |m.streams| && Offers(m.streams[k], s, requests[s])
  }

  /** The contract a selected mode meets. */
  predicate Acceptable(info: StaticCameraInfo, requests: seq<StreamRequest>, subdevice: int, m: SubdeviceMode)
    requires Fits(info, requests)
  {
    && m.subdevice == subdevice
    && ServesAll(info, requests, subdevice, m)
    && RulesHold(info.interstreamRules, requests)
  }

  /** Checks the requests for streams `s` onwards against mode `m`, one stream at a time. */
  function ServesFrom(info: StaticCameraInfo, requests: seq<StreamRequest>, subdevice: int, m: SubdeviceMode, s: nat): (r: bool)
    requires |requests| == |info.streamSubdevices|
    requires s <= |requests|
    ensures r <==> forall t :: s <= t < |requests| && Relevant(info, requests, subdevice, t) ==>
      exists k :: 0 <= k < |m.streams| && Offers(m.streams[k], t, requests[t])
    decreases |requests| - s
  {
    if s == |requests| then true
    else
      && (!Relevant(info, requests, subdevice, s) || FindStreamMode(m.streams, s, requests[s], 0).Some?)
      && ServesFrom(info, requests, subdevice, m, s + 1)
  }

  /** The first acceptable catalog entry at or after position `i`. */
  function SearchFrom(info: StaticCameraInfo, requests: seq<StreamRequest>, subdevice: int, i: nat): (r: Option<nat>)
    requires Fits(info, requests)
    requires RulesHold(info.interstreamRules, requests)
    requires i <= |info.subdeviceModes|
    ensures r.Some? ==> i <= r.value < |info.subdeviceModes|
    ensures r.Some? ==> Acceptable(info, requests, subdevice, info.subdeviceModes[r.value])
    ensures r.Some? ==> forall k :: i <= k < r.value ==> !Acceptable(info, requests, subdevice, info.subdeviceModes[k])
    ensures r.None? ==> forall k :: i <= k < |info.subdeviceModes| ==> !Acceptable(info, requests, subdevice, info.subdeviceModes[k])
    decreases |info.subdeviceModes| - i
  {
    if i == |info.subdeviceModes| then None
    else
      var m := info.subdeviceModes[i];
      if m.subdevice == subdevice && ServesFrom(info, requests, subdevice, m, 0) then Some(i)
      else SearchFrom(info, requests, subdevice, i + 1)
  }

  /**
   * The rules constrain the request set whichever candidate is tried, so
   * they are evaluated once before the catalog is searched.
   */
  function SelectMode(info: StaticCameraInfo, requests: seq<StreamRequest>, subdevice: int): (r: Option<nat>)
    requires Fits(info, requests)
    // Never fabricates: the result is an entry of the catalog for this subdevice.
    ensures r.Some? ==> r.value < |info.subdeviceModes| && info.subdeviceModes[r.value].subdevice == subdevice
    // Every enabled request mapped to the subdevice is offered, field for field up to "don't care".
    ensures r.Some? ==> forall s :: 0 <= s < |requests| && Relevant(info, requests, subdevice, s) ==>
      exists k :: 0 <= k < |info.subdeviceModes[r.value].streams| && Offers(info.subdeviceModes[r.value].streams[k], s, requests[s])
    // Every interstream rule over the enabled requests holds.
    ensures r.Some? ==> forall i :: 0 <= i < |info.interstreamRules| ==> RuleHolds(info.interstreamRules[i], requests)
    // Earlier catalog entries are preferred.
    ensures r.Some? ==> forall k :: 0 <= k < r.value ==> !Acceptable(info, requests, subdevice, info.subdeviceModes[k])
    // Failure only when no catalog entry qualifies.
    ensures r.None? <==> forall k :: 0 <= k < |info.subdeviceModes| ==> !Acceptable(info, requests, subdevice, info.subdeviceModes[k])
  {
    if !RulesHold(info.interstreamRules, requests) then None
    else SearchFrom(info, requests, subdevice, 0)
  }

  /**
   * When every mode acceptable for `r1` is acceptable for `r2`, a selection
   * for `r1` implies one for `r2`, at the same or an earlier catalog entry.
   */
  lemma SelectionMonotone(info: StaticCameraInfo, r1: seq<StreamRequest>, r2: seq<StreamRequest>, subdevice: int)
    requires Fits(info, r1) && Fits(info, r2)
    requires forall k :: 0 <= k < |info.subdeviceModes| && Acceptable(info, r1, subdevice, info.subdeviceModes[k]) ==>
      Acceptable(info, r2, subdevice, info.subdeviceModes[k])
    requires SelectMode(info, r1, subdevice).Some?
    ensures SelectMode(info, r2, subdevice).Some?
    ensures SelectMode(info, r2, subdevice).value <= SelectMode(info, r1, subdevice).value
  {
    var k1 := SelectMode(info, r1, subdevice).value;
    assert Acceptable(info, r2, subdevice, info.subdeviceModes[k1]);
  }

  /** Disabling a request never turns a selection into a failure. */
  lemma DisablingKeepsSelection(info: StaticCameraInfo, requests: seq<StreamRequest>, subdevice: int, s: int)
    requires Fits(info, requests)
    requires 0 <= s < |requests|
    requires SelectMode(info, requests, subdevice).Some?
    ensures var relaxed := requests[s := requests[s].(enabled := false)];
      && SelectMode(info, relaxed, subdevice).Some?
      && SelectMode(info, relaxed, subdevice).value <= SelectMode(info, requests, subdevice).value
  {
    var relaxed := requests[s := requests[s].(enabled := false)];
    var rules := info.interstreamRules;
    forall i | 0 <= i < |rules| && RuleHolds(rules[i], requests)
      ensures RuleHolds(rules[i], relaxed)
    {
      if rules[i].a != s && rules[i].b != s {
        assert relaxed[rules[i].a] == requests[rules[i].a];
        assert relaxed[rules[i].b] == requests[rules[i].b];
      }
    }
    forall k | 0 <= k < |info.subdeviceModes| && Acceptable(info, requests, subdevice, info.subdeviceModes[k])
      ensures Acceptable(info, relaxed, subdevice, info.subdeviceModes[k])
    {
      var m := info.subdeviceModes[k];
      forall t | 0 <= t < |relaxed| && Relevant(info, relaxed, subdevice, t)
        ensures exists n :: 0 <= n < |m.streams| && Offers(m.streams[n], t, relaxed[t])
      {
        assert Relevant(info, requests, subdevice, t);
      }
    }
    SelectionMonotone(info, requests, relaxed, subdevice);
  }

  /** Rules select only width, height or fps, so a request's format never affects them. */
  lemma RulesIgnoreFormat(rules: seq<InterstreamRule>, requests: seq<StreamRequest>, s: int, format: int)
    requires forall i :: 0 <= i < |rules| ==> RuleInRange(rules[i], |requests|)
    requires 0 <= s < |requests|
    ensures RulesHold(rules, requests[s := requests[s].(format := format)]) == RulesHold(rules, requests)
  {
    var changed := requests[s := requests[s].(format := format)];
    forall i | 0 <= i < |rules|
      ensures RuleHolds(rules[i], changed) == RuleHolds(rules[i], requests)
    {
      var f := rules[i].field;
      assert Get(changed[rules[i].a], f) == Get(requests[rules[i].a], f);
      assert Get(changed[rules[i].b], f) == Get(requests[rules[i].b], f);
    }
  }

  /** Asking for any format instead of a specific one never turns a selection into a failure. */
  lemma AnyFormatKeepsSelection(info: StaticCameraInfo, requests: seq<StreamRequest>, subdevice: int, s: int)
    requires Fits(info, requests)
    requires 0 <= s < |requests|
    requires SelectMode(info, requests, subdevice).Some?
    ensures var relaxed := requests[s := requests[s].(format := FormatAny)];
      && SelectMode(info, relaxed, subdevice).Some?
      && SelectMode(info, relaxed, subdevice).value <= SelectMode(info, requests, subdevice).value
  {
    var relaxed := requests[s := requests[s].(format := FormatAny)];
    RulesIgnoreFormat(info.interstreamRules, requests, s, FormatAny);
    forall k | 0 <= k < |info.subdeviceModes| && Acceptable(info, requests, subdevice, info.subdeviceModes[k])
      ensures Acceptable(info, relaxed, subdevice, info.subdeviceModes[k])
    {
      var m := info.subdeviceModes[k];
      forall t | 0 <= t < |relaxed| && Relevant(info, relaxed, subdevice, t)
        ensures exists n :: 0 <= n < |m.streams| && Offers(m.streams[n], t, relaxed[t])
      {
        assert Relevant(info, requests, subdevice, t);
        var n :| 0 <= n < |m.streams| && Offers(m.streams[n], t, requests[t]);
        assert Offers(m.streams[n], t, relaxed[t]);
      }
    }
    SelectionMonotone(info, requests, relaxed, subdevice);
  }

  /**
   * Rules compare requested values, so a "don't care" 0 does not satisfy
   * a rule by itself. With both sides enabled, no mode is selected when
   * `b.field == 0` and `a.field + delta != 0`, or when `a.field == 0` and
   * `b.field != delta`.
   */
  lemma WildcardSideFailsRule(info: StaticCameraInfo, requests: seq<StreamRequest>, subdevice: int, i: int)
    requires Fits(info, requests)
    requires 0 <= i < |info.interstreamRules|
    requires var rule := info.interstreamRules[i];
      && requests[rule.a].enabled && requests[rule.b].enabled
      && (|| (Get(requests[rule.b], rule.field) == 0 && Get(requests[rule.a], rule.field) + rule.delta != 0)
          || (Get(requests[rule.a], rule.field) == 0 && rule.delta != Get(requests[rule.b], rule.field)))
    ensures SelectMode(info, requests, subdevice) == None
  {
    assert !RuleHolds(info.interstreamRules[i], requests);
  }

  /** The fields of a disabled request play no part in selection. */
  lemma DisabledRequestsIgnored(info: StaticCameraInfo, r1: seq<StreamRequest>, r2: seq<StreamRequest>, subdevice: int)
    requires Fits(info, r1) && Fits(info, r2)
    requires forall s :: 0 <= s < |r1| ==> r1[s].enabled == r2[s].enabled && (r1[s].enabled ==> r1[s] == r2[s])
    ensures SelectMode(info, r1, subdevice) == SelectMode(info, r2, subdevice)
  {
    var rules := info.interstreamRules;
    forall i | 0 <= i < |rules|
      ensures RuleHolds(rules[i], r1) == RuleHolds(rules[i], r2)
    {
      var a, b := rules[i].a, rules[i].b;
      assert r1[a].enabled && r1[b].enabled ==> r1[a] == r2[a] && r1[b] == r2[b];
    }
    forall k | 0 <= k < |info.subdeviceModes|
      ensures Acceptable(info, r1, subdevice, info.subdeviceModes[k]) == Acceptable(info, r2, subdevice, info.subdeviceModes[k])
    {
      var m := info.subdeviceModes[k];
      forall t | 0 <= t < |r1|
        ensures Relevant(info, r1, subdevice, t) == Relevant(info, r2, subdevice, t)
        ensures Relevant(info, r1, subdevice, t) ==> r1[t] == r2[t]
      {
      }
    }
    var x, y := SelectMode(info, r1, subdevice), SelectMode(info, r2, subdevice);
    if x.Some? && y.Some? {
      assert !(x.value < y.value) && !(y.value < x.value);
    }
  }
}
