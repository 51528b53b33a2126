/**
 * The newest generation's settings window (DangIt/Runtime/GUI/SettingsWindow.cs) without
 * its drawing: the working copy of the settings, the text mirrors of its numeric fields,
 * the confirmation asked for before the mod is switched on or off, and Apply.
 */
module SettingsWindowModel {
  import opened Wrappers
  import opened Convert
  import opened RuntimeSettings
  import opened Controller

  /** The alarm volume Apply keeps: below 1 becomes 1, above 100 becomes 100. */
  function ClampVolume(av: Int32): (r: Int32)
    ensures 1 <= r <= 100
    ensures av < 1 ==> r == 1
    ensures av > 100 ==> r == 100
    ensures 1 <= av <= 100 ==> r == av
  {
    if av < 1 then 1 else if av > 100 then 100 else av
  }

  /**
   * The fields Apply parses from the text boxes, each with its own default for empty or
   * unparseable text (distance 2, loops 0, 2 and -1, volume 100); the volume is clamped.
   */
  function Applied(d: SettingsData, distance: string, low: string, medium: string, high: string, volume: string): (r: SettingsData)
    ensures r.enabledForSave == d.enabledForSave && r.manualFailures == d.manualFailures && r.messages == d.messages
    ensures r.glow == d.glow && r.requireExperience == d.requireExperience && r.debugStats == d.debugStats
    ensures 1 <= r.alarmVolume <= 100
    ensures ParseReal(distance).None? ==> r.maxDistance == 2.0
    ensures ParseInt(low).None? ==> r.priLowSoundLoops == 0
    ensures ParseInt(medium).None? ==> r.priMediumSoundLoops == 2
    ensures ParseInt(high).None? ==> r.priHighSoundLoops == -1
    ensures ParseInt(volume).None? ==> r.alarmVolume == 100
    ensures distance == "" && low == "" && medium == "" && high == "" && volume == "" ==>
      r == d.(maxDistance := 2.0, priLowSoundLoops := 0, priMediumSoundLoops := 2, priHighSoundLoops := -1, alarmVolume := 100)
    ensures distance != "" && ParseReal(distance).Some? ==> r.maxDistance == ParseReal(distance).value
    ensures volume != "" && ParseInt(volume).Some? ==> r.alarmVolume == ClampVolume(ParseInt(volume).value)
  {
    d.(maxDistance := Parse(Some(distance), 2.0, ParseReal),
       priLowSoundLoops := Parse(Some(low), 0, ParseInt),
       priMediumSoundLoops := Parse(Some(medium), 2, ParseInt),
       priHighSoundLoops := Parse(Some(high), -1, ParseInt),
       alarmVolume := ClampVolume(Parse(Some(volume), 100, ParseInt)))
  }

  /**
   * Pressing Apply again without typing changes nothing: the mirrors written after an
   * Apply parse back to the applied values (for a whole-number distance).
   */
  lemma ApplyAgainChangesNothing(d: SettingsData, distance: string, low: string, medium: string, high: string, volume: string)
    requires Applied(d, distance, low, medium, high, volume).maxDistance.Floor as real == Applied(d, distance, low, medium, high, volume).maxDistance
    ensures var a := Applied(d, distance, low, medium, high, volume);
      Applied(a, RealText(a.maxDistance), IntText(a.priLowSoundLoops), IntText(a.priMediumSoundLoops),
        IntText(a.priHighSoundLoops), IntText(a.alarmVolume)) == a
  {
    var a := Applied(d, distance, low, medium, high, volume);
    ParseWrittenWholeReal(a.maxDistance.Floor, 2.0);
    ParseWrittenInt(a.priLowSoundLoops, 0);
    ParseWrittenInt(a.priMediumSoundLoops, 2);
    ParseWrittenInt(a.priHighSoundLoops, -1);
    ParseWrittenInt(a.alarmVolume, 100);
  }

  /** What the toggles and text boxes of the window return this frame. */
  datatype Controls = Controls(
    manualFailures: bool,
    debugStats: bool,
    glow: bool,
    requireExperience: bool,
    messages: bool,
    distance: string,
    volume: string,
    low: string,
    medium: string,
    high: string)

  /** The settings window and the runtime whose settings it edits. */
  class SettingsWindow {
    const runtime: Runtime
    var enabled: bool
    var newSettings: Settings?
    var evaDistanceString: string
    var soundLoopsLow: string
    var soundLoopsMedium: string
    var soundLoopsHigh: string
    var soundVolumeString: string
    var lastEnabledValue: bool
    var waitingForConfirm: bool

    /** The text boxes show the working copy's numeric fields. */
    predicate Mirrors()
      reads this, newSettings
    {
      newSettings != null &&
      evaDistanceString == RealText(newSettings.data.maxDistance) &&
      soundLoopsLow == IntText(newSettings.data.priLowSoundLoops) &&
      soundLoopsMedium == IntText(newSettings.data.priMediumSoundLoops) &&
      soundLoopsHigh == IntText(newSettings.data.priHighSoundLoops) &&
      soundVolumeString == IntText(newSettings.data.alarmVolume)
    }

    /** The field initialisers. */
    constructor(runtime: Runtime)
      ensures this.runtime == runtime && !enabled && newSettings == null && !lastEnabledValue && !waitingForConfirm
      ensures evaDistanceString == "" && soundLoopsLow == "" && soundLoopsMedium == "" && soundLoopsHigh == "" && soundVolumeString == ""
    {
      this.runtime := runtime;
      enabled := false;
      newSettings := null;
      evaDistanceString, soundLoopsLow, soundLoopsMedium, soundLoopsHigh, soundVolumeString := "", "", "", "", "";
      lastEnabledValue := false;
      waitingForConfirm := false;
    }

    /**
     * ReInitilize: the working copy becomes a clone of the runtime's settings, the text
     * boxes mirror it and lastEnabledValue takes its EnabledForSave. Without runtime
     * settings it throws and nothing has changed.
     */
    method ReInitialize() returns (r: Result<()>)
      modifies this`newSettings, this`lastEnabledValue, this`evaDistanceString, this`soundVolumeString
      modifies this`soundLoopsLow, this`soundLoopsMedium, this`soundLoopsHigh
      ensures r.Err? <==> runtime.currentSettings == null
      ensures r.Err? ==> r.message == NullReference && unchanged(this)
      ensures r.Ok? ==> newSettings != null && fresh(newSettings) && newSettings.data == runtime.currentSettings.data
      ensures r.Ok? ==> Mirrors() && lastEnabledValue == newSettings.data.enabledForSave
    {
      if runtime.currentSettings == null {
        return Err(NullReference);
      }
      var clone := runtime.currentSettings.ShallowClone();
      var d := clone.data;
      newSettings := clone;
      evaDistanceString, soundLoopsLow, soundLoopsMedium, soundLoopsHigh, soundVolumeString :=
        RealText(d.maxDistance), IntText(d.priLowSoundLoops), IntText(d.priMediumSoundLoops), IntText(d.priHighSoundLoops), IntText(d.alarmVolume);
      lastEnabledValue := d.enabledForSave;
      r := Ok(());
    }

    /** The Enabled setter: switching the window on re-initialises it; switching it off changes only the flag. */
    method SetEnabled(value: bool) returns (r: Result<()>)
      modifies this
      ensures enabled == value && waitingForConfirm == old(waitingForConfirm)
      ensures !value ==> r.Ok? && newSettings == old(newSettings) && lastEnabledValue == old(lastEnabledValue)
      ensures !value ==> evaDistanceString == old(evaDistanceString) && soundVolumeString == old(soundVolumeString)
      ensures !value ==> soundLoopsLow == old(soundLoopsLow) && soundLoopsMedium == old(soundLoopsMedium) && soundLoopsHigh == old(soundLoopsHigh)
      ensures value ==> (r.Err? <==> runtime.currentSettings == null)
      ensures value && r.Ok? ==> fresh(newSettings) && newSettings.data == runtime.currentSettings.data
      ensures value && r.Ok? ==> Mirrors() && lastEnabledValue == newSettings.data.enabledForSave
    {
      enabled := value;
      if value {
        r := ReInitialize();
      } else {
        r := Ok(());
      }
    }

    /**
     * The confirmation branch. "Yes" records the new EnabledForSave as the last one and
     * installs the working copy itself as the runtime's settings; "No" puts EnabledForSave
     * back. Either answer ends the wait.
     */
    method ConfirmChoice(yes: bool, no: bool)
      requires newSettings != null
      modifies this, newSettings, runtime
      ensures newSettings == old(newSettings) && enabled == old(enabled) && Mirrors() == old(Mirrors())
      ensures yes ==> runtime.currentSettings == newSettings && lastEnabledValue == old(newSettings.data.enabledForSave)
      ensures !yes ==> runtime.currentSettings == old(runtime.currentSettings) && lastEnabledValue == old(lastEnabledValue)
      ensures no ==> newSettings.data == old(newSettings.data).(enabledForSave := lastEnabledValue)
      ensures !no ==> newSettings.data == old(newSettings.data)
      ensures yes || no ==> !waitingForConfirm
      ensures !yes && !no ==> waitingForConfirm == old(waitingForConfirm)
      ensures runtime.isReady == old(runtime.isReady)
    {
      if yes {
        lastEnabledValue := newSettings.data.enabledForSave;
        waitingForConfirm := false;
        runtime.SetCurrentSettings(newSettings);
      }
      if no {
        newSettings.data := newSettings.data.(enabledForSave := lastEnabledValue);
        waitingForConfirm := false;
      }
    }

    /** The Enable toggle: a value that differs from the last confirmed one asks for confirmation. */
    method ToggleEnable(value: bool)
      requires newSettings != null
      modifies newSettings, this
      ensures newSettings == old(newSettings) && newSettings.data == old(newSettings.data).(enabledForSave := value)
      ensures waitingForConfirm == (old(waitingForConfirm) || value != lastEnabledValue)
      ensures lastEnabledValue == old(lastEnabledValue) && enabled == old(enabled)
      ensures evaDistanceString == old(evaDistanceString) && soundVolumeString == old(soundVolumeString)
      ensures soundLoopsLow == old(soundLoopsLow) && soundLoopsMedium == old(soundLoopsMedium) && soundLoopsHigh == old(soundLoopsHigh)
    {
      newSettings.data := newSettings.data.(enabledForSave := value);
      if newSettings.data.enabledForSave != lastEnabledValue {
        waitingForConfirm := true;
      }
    }

    /** The toggles and text boxes, shown and read only while the working copy is enabled. */
    method EditFields(c: Controls)
      requires newSettings != null
      modifies newSettings, this
      ensures newSettings == old(newSettings) && enabled == old(enabled)
      ensures lastEnabledValue == old(lastEnabledValue) && waitingForConfirm == old(waitingForConfirm)
      ensures old(newSettings.data.enabledForSave) ==>
        newSettings.data == old(newSettings.data).(manualFailures := c.manualFailures, debugStats := c.debugStats,
          glow := c.glow, requireExperience := c.requireExperience, messages := c.messages) &&
        evaDistanceString == c.distance && soundVolumeString == c.volume &&
        soundLoopsLow == c.low && soundLoopsMedium == c.medium && soundLoopsHigh == c.high
      ensures !old(newSettings.data.enabledForSave) ==>
        newSettings.data == old(newSettings.data) &&
        evaDistanceString == old(evaDistanceString) && soundVolumeString == old(soundVolumeString) &&
        soundLoopsLow == old(soundLoopsLow) && soundLoopsMedium == old(soundLoopsMedium) && soundLoopsHigh == old(soundLoopsHigh)
    {
      if newSettings.data.enabledForSave {
        newSettings.data := newSettings.data.(manualFailures := c.manualFailures, debugStats := c.debugStats,
          glow := c.glow, requireExperience := c.requireExperience, messages := c.messages);
        evaDistanceString := c.distance;
        soundVolumeString := c.volume;
        soundLoopsLow := c.low;
        soundLoopsMedium := c.medium;
        soundLoopsHigh := c.high;
      }
    }

    /**
     * Apply: the text boxes are parsed into the working copy, which becomes the runtime's
     * settings; the window then re-initialises from it, so the boxes show what was kept.
     */
    method Apply()
      requires newSettings != null
      modifies this, newSettings, runtime
      ensures runtime.currentSettings == old(newSettings) && runtime.isReady == old(runtime.isReady)
      ensures runtime.currentSettings.data ==
        Applied(old(newSettings.data), old(evaDistanceString), old(soundLoopsLow), old(soundLoopsMedium), old(soundLoopsHigh), old(soundVolumeString))
      ensures fresh(newSettings) && newSettings.data == runtime.currentSettings.data
      ensures Mirrors() && lastEnabledValue == newSettings.data.enabledForSave
      ensures 1 <= newSettings.data.alarmVolume <= 100
      ensures enabled == old(enabled) && waitingForConfirm == old(waitingForConfirm)
    {
      var distance := Parse(Some(evaDistanceString), 2.0, ParseReal);
      var low := Parse(Some(soundLoopsLow), 0, ParseInt);
      var medium := Parse(Some(soundLoopsMedium), 2, ParseInt);
      var high := Parse(Some(soundLoopsHigh), -1, ParseInt);
      var av := Parse(Some(soundVolumeString), 100, ParseInt);
      if av < 1 {
        av := 1;
      } else if av > 100 {
        av := 100;
      }
      ghost var applied := Applied(newSettings.data, evaDistanceString, soundLoopsLow, soundLoopsMedium, soundLoopsHigh, soundVolumeString);
      newSettings.data := newSettings.data.(maxDistance := distance, priLowSoundLoops := low,
        priMediumSoundLoops := medium, priHighSoundLoops := high, alarmVolume := av);
      assert newSettings.data == applied;
      runtime.SetCurrentSettings(newSettings);
      var _ := ReInitialize();
    }

    /**
     * SettingsWindowFcn: while a confirmation is pending only "Yes" and "No" act; otherwise
     * the Enable toggle, the fields and, when pressed, Apply.
     */
    method WindowFunction(yes: bool, no: bool, enable: bool, c: Controls, apply: bool)
      requires newSettings != null
      modifies this, newSettings, runtime
      ensures newSettings != null
      ensures old(waitingForConfirm) && !yes && !no ==>
        waitingForConfirm && newSettings == old(newSettings) && newSettings.data == old(newSettings.data) &&
        runtime.currentSettings == old(runtime.currentSettings)
      ensures old(waitingForConfirm) && yes ==> !waitingForConfirm && runtime.currentSettings == newSettings
      ensures !old(waitingForConfirm) && enable != old(lastEnabledValue) ==> waitingForConfirm
      ensures !old(waitingForConfirm) && enable == old(lastEnabledValue) ==> !waitingForConfirm
      ensures !old(waitingForConfirm) && apply ==>
        Mirrors() && runtime.currentSettings != null && 1 <= runtime.currentSettings.data.alarmVolume <= 100
      ensures !old(waitingForConfirm) && !apply ==> runtime.currentSettings == old(runtime.currentSettings)
    {
      if waitingForConfirm {
        ConfirmChoice(yes, no);
      } else {
        ToggleEnable(enable);
        EditFields(c);
        if apply {
          Apply();
        }
      }
    }
  }
}
