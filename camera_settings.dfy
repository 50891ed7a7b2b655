/** Translation of the loaded camera settings into the device parameter
    writes `CameraThread` issues while connecting (display.cpp, lines
    350-376): the frame-time switch, exposure and analog gain written as
    given, the preamp gain translated to the device's enumeration name, and
    the black level written only when it lies in the device's range.

    The SDK "set" calls are reduced to the list of writes they would make,
    in order, so that "which value ends up in which parameter" can be read
    off with `Written`. */
module CameraSettings {
  import opened Wrappers
  import opened CTypes

  /** The `CameraSettings` global, as read from the settings file. */
  datatype Settings = Settings(
    exposure: uint16,
    analogGain: uint16,
    preampGain: int16,
    blackLevel: int32)

  /** Lowest and highest black level the device accepts. */
  const BLACK_LEVEL_MIN: int := 0
  const BLACK_LEVEL_MAX: int := 1023

  /** The device's names for the four preamp gains. */
  const PREAMP_NAMES: set<string> := {"minus3dB", "zero_dB", "plus3dB", "plus6dB"}

  /** A value stored into a device parameter. */
  datatype Value = BoolValue(b: bool) | IntValue(i: int) | EnumValue(e: string)

  /** One `Set...Value(name, value)` call on the device parameter array. */
  datatype Write = Write(name: string, value: Value)

  /** The `switch` on the preamp gain: -3, 0, 3 and 6 dB have a name of
      their own; every other value falls back to the 0 dB setting. */
  function PreampName(gain: int16): (r: string)
    ensures r in PREAMP_NAMES
    ensures r == "minus3dB" <==> gain == -3
    ensures r == "plus3dB" <==> gain == 3
    ensures r == "plus6dB" <==> gain == 6
    ensures r == "zero_dB" <==> gain != -3 && gain != 3 && gain != 6
  {
    if gain == -3 then "minus3dB"
    else if gain == 0 then "zero_dB"
    else if gain == 3 then "plus3dB"
    else if gain == 6 then "plus6dB"
    else "zero_dB"
  }

  /** The gain in dB a device preamp name stands for (the reading of the
      enumeration, used as the partner of `PreampName`). */
  function PreampGain(name: string): (r: Option<int16>)
    ensures r.Some? <==> name in PREAMP_NAMES
  {
    if name == "minus3dB" then Some(-3)
    else if name == "zero_dB" then Some(0)
    else if name == "plus3dB" then Some(3)
    else if name == "plus6dB" then Some(6)
    else None
  }

  /** The black level to write, if the range guard lets it through. */
  function BlackLevelToWrite(level: int32): (r: Option<int>)
    ensures r.Some? <==> BLACK_LEVEL_MIN <= level <= BLACK_LEVEL_MAX
    ensures r.Some? ==> r.value == level
  {
    if level >= BLACK_LEVEL_MIN && level <= BLACK_LEVEL_MAX then Some(level) else None
  }

  /** The parameter writes of the connect sequence, in the order they are
      issued: four fixed writes, then the black level exactly when the range
      guard lets it through. */
  function SettingsWrites(s: Settings): (w: seq<Write>)
    ensures |w| == 4 || |w| == 5
    ensures w[..4] == [ Write("ProgFrameTimeEnable", BoolValue(false)),
                        Write("ExposureTimeRaw", IntValue(s.exposure)),
                        Write("GainRaw", IntValue(s.analogGain)),
                        Write("PreAmpRaw", EnumValue(PreampName(s.preampGain))) ]
    ensures |w| == 5 <==> BLACK_LEVEL_MIN <= s.blackLevel <= BLACK_LEVEL_MAX
    ensures |w| == 5 ==> w[4] == Write("BlackLevelRaw", IntValue(s.blackLevel))
  {
    [ Write("ProgFrameTimeEnable", BoolValue(false)),
      Write("ExposureTimeRaw", IntValue(s.exposure)),
      Write("GainRaw", IntValue(s.analogGain)),
      Write("PreAmpRaw", EnumValue(PreampName(s.preampGain))) ] +
    match BlackLevelToWrite(s.blackLevel)
    case Some(level) => [Write("BlackLevelRaw", IntValue(level))]
    case None => []
  }

  /** The value a parameter holds after a list of writes, if any write
      touched it: the last write to a name wins. */
  function Written(writes: seq<Write>, name: string): (r: Option<Value>)
    ensures r.None? <==> forall k :: 0 <= k < |writes| ==> writes[k].name != name
    ensures r.Some? ==> exists k :: 0 <= k < |writes| && writes[k] == Write(name, r.value)
  {
    if |writes| == 0 then None
    else if writes[|writes| - 1].name == name then Some(writes[|writes| - 1].value)
    else Written(writes[..|writes| - 1], name)
  }

  // ---------------------------------------------------------------------
  // Properties
  // ---------------------------------------------------------------------

  /** One more write changes only the parameter it names. */
  lemma WrittenAppend(writes: seq<Write>, w: Write)
    ensures forall name :: Written(writes + [w], name) ==
              if w.name == name then Some(w.value) else Written(writes, name)
  {
    assert (writes + [w])[..|writes|] == writes;
  }

  /** Every recognised gain survives the translation, and every other gain
      is written as the 0 dB setting. */
  lemma PreampRoundTrip(gain: int16)
    ensures gain in {-3, 0, 3, 6} ==> PreampGain(PreampName(gain)) == Some(gain)
    ensures gain !in {-3, 0, 3, 6} ==> PreampGain(PreampName(gain)) == Some(0)
  {
  }

  /** Every device name is the translation of the gain it stands for. */
  lemma PreampNameRoundTrip(name: string)
    requires name in PREAMP_NAMES
    ensures PreampName(PreampGain(name).value) == name
  {
  }

  /** What the connect sequence leaves in each parameter: the frame-time
      switch off, exposure and analog gain as configured, the preamp set to
      the translated name, and the black level set exactly when it is in
      range (otherwise the device keeps its previous value). Nothing else is
      written. */
  lemma WrittenSettings(s: Settings)
    ensures Written(SettingsWrites(s), "ProgFrameTimeEnable") == Some(BoolValue(false))
    ensures Written(SettingsWrites(s), "ExposureTimeRaw") == Some(IntValue(s.exposure))
    ensures Written(SettingsWrites(s), "GainRaw") == Some(IntValue(s.analogGain))
    ensures Written(SettingsWrites(s), "PreAmpRaw") == Some(EnumValue(PreampName(s.preampGain)))
    ensures Written(SettingsWrites(s), "BlackLevelRaw") ==
            (if BLACK_LEVEL_MIN <= s.blackLevel <= BLACK_LEVEL_MAX then Some(IntValue(s.blackLevel)) else None)
    ensures forall name :: name !in {"ProgFrameTimeEnable", "ExposureTimeRaw", "GainRaw", "PreAmpRaw", "BlackLevelRaw"} ==>
              Written(SettingsWrites(s), name).None?
  {
    var w := SettingsWrites(s);
    var base := [Write("ProgFrameTimeEnable", BoolValue(false))];
    WrittenAppend(base, Write("ExposureTimeRaw", IntValue(s.exposure)));
    base := base + [Write("ExposureTimeRaw", IntValue(s.exposure))];
    WrittenAppend(base, Write("GainRaw", IntValue(s.analogGain)));
    base := base + [Write("GainRaw", IntValue(s.analogGain))];
    WrittenAppend(base, Write("PreAmpRaw", EnumValue(PreampName(s.preampGain))));
    base := base + [Write("PreAmpRaw", EnumValue(PreampName(s.preampGain)))];
    if BLACK_LEVEL_MIN <= s.blackLevel <= BLACK_LEVEL_MAX {
      WrittenAppend(base, Write("BlackLevelRaw", IntValue(s.blackLevel)));
      assert w == base + [Write("BlackLevelRaw", IntValue(s.blackLevel))];
    } else {
      assert w == base;
    }
    forall name | name !in {"ProgFrameTimeEnable", "ExposureTimeRaw", "GainRaw", "PreAmpRaw", "BlackLevelRaw"}
      ensures Written(w, name).None?
    {
      assert forall k :: 0 <= k < |w| ==> w[k].name != name;
    }
  }

  /** The settings can be read back from the device parameters whenever the
      preamp gain is one of the four recognised values and the black level
      is in range; this is the inverse of `SettingsWrites`. */
  function ReadBack(writes: seq<Write>): (r: Option<Settings>)
  {
    match (Written(writes, "ExposureTimeRaw"), Written(writes, "GainRaw"),
           Written(writes, "PreAmpRaw"), Written(writes, "BlackLevelRaw"))
    case (Some(IntValue(e)), Some(IntValue(g)), Some(EnumValue(p)), Some(IntValue(b))) =>
      if 0 <= e < 0x1_0000 && 0 <= g < 0x1_0000 && -0x8000_0000 <= b < 0x8000_0000 && PreampGain(p).Some? then
        Some(Settings(e, g, PreampGain(p).value, b))
      else None
    case _ => None
  }

  /** Reading the written parameters back gives the configured settings
      exactly when nothing was lost in translation. */
  lemma ReadBackSettings(s: Settings)
    ensures ReadBack(SettingsWrites(s)) == Some(s) <==>
            s.preampGain in {-3, 0, 3, 6} && BLACK_LEVEL_MIN <= s.blackLevel <= BLACK_LEVEL_MAX
  {
    WrittenSettings(s);
  }
}
