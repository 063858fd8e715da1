/** The voice registry of `Qwen3TTSManager`: the `voices` table of the bot's
    configuration (a dictionary, so its keys keep insertion order) together with
    the `default_voice` pointer. Every operation maps a registry to an
    `Outcome`: the `(success, message)` pair the manager returns and the
    registry as it stands afterwards. All are total except `Create`, which
    needs the `default` entry to build a fresh voice. Persisting the configuration is
    not modelled (see README). */
module Registry {
  import opened Wrappers

  /** `DEFAULT_VOICE_NAME`: the stock voice that can never be deleted. */
  const DefaultName: string := "default"

  /** `VOICE_LIBRARY_DIR`: where cloned samples are copied to. */
  const LibraryDir: string := "voice_library"

  datatype Settings = Settings(speed: real, pitch: real, volume: real, emotion: string, language: string)

  /** A partial settings dictionary, as passed to `update_voice_settings`:
      `None` marks a key that is not supplied. */
  datatype Patch = Patch(
    speed: Option<real>,
    pitch: Option<real>,
    volume: Option<real>,
    emotion: Option<string>,
    language: Option<string>)

  /** One voice profile; `clonedFrom` and `referenceText` are `None` when the key is absent. */
  datatype Voice = Voice(
    model: string,
    settings: Settings,
    cloned: bool,
    clonedFrom: Option<string>,
    referenceText: Option<string>,
    createdAt: string,
    description: string)

  /** `names` lists the keys of `voices` in dictionary order (what `get_voice_list` returns). */
  datatype Registry = Registry(names: seq<string>, voices: map<string, Voice>, defaultVoice: string)

  datatype Message =
    | AlreadyExists
    | Created(name: string)
    | Cloned(name: string)
    | CloneError
    | NotFound
    | DefaultUndeletable
    | Deleted(name: string)
    | SettingsUpdated
    | DefaultSet(name: string)

  datatype Outcome = Outcome(success: bool, message: Message, after: Registry)

  datatype Stats = Stats(total: nat, cloned: nat, standard: int, defaultName: string)

  predicate Distinct(s: seq<string>) {
    forall i, j :: 0 <= i < j < |s| ==> s[i] != s[j]
  }

  /** The registry invariants: the name list enumerates the keys once each,
      the entry `default` exists, and the default pointer names an existing voice. */
  predicate Valid(r: Registry) {
    && Distinct(r.names)
    && (forall i :: 0 <= i < |r.names| ==> r.names[i] in r.voices)
    && (forall n :: n in r.voices ==> n in r.names)
    && DefaultName in r.voices
    && r.defaultVoice in r.voices
  }

  /** The voices other than `name` are the same in `a` and `b`. */
  predicate OthersUnchanged(a: map<string, Voice>, b: map<string, Voice>, name: string) {
    forall n :: n in a && n != name ==> n in b && b[n] == a[n]
  }

  function CustomDescription(name: string): string {
    "Пользовательский голос: " + name
  }

  function ClonedDescription(name: string): string {
    "Клонированный голос: " + name
  }

  /** Where `clone_voice` copies the sample of voice `name`. */
  function SamplePath(name: string): string {
    LibraryDir + "/" + name + "/reference_audio.wav"
  }

  /** The configuration of a first start: the stock `default` voice only. */
  function Initial(createdAt: string): (r: Registry)
    ensures Valid(r)
    ensures r.names == [DefaultName] && r.defaultVoice == DefaultName
    ensures !r.voices[DefaultName].cloned
  {
    var stock := Voice(
      "Qwen/Qwen3-TTS-12Hz-1.7B-Base",
      Settings(1.0, 1.0, 1.0, "neutral", "ru"),
      false, None, None, createdAt, "Голос по умолчанию");
    Registry([DefaultName], map[DefaultName := stock], DefaultName)
  }

  /** `get_voice_list`: every voice name once, in dictionary order. */
  function VoiceList(r: Registry): (names: seq<string>)
    ensures Valid(r) ==> Distinct(names)
    ensures Valid(r) ==> forall n :: n in names <==> n in r.voices
  {
    r.names
  }

  /** `get_voice_info`: the profile, or `None` for an unknown name. */
  function VoiceInfo(r: Registry, name: string): (v: Option<Voice>)
    ensures v.Some? <==> name in r.voices
    ensures v.Some? ==> v.value == r.voices[name]
  {
    if name in r.voices then Some(r.voices[name]) else None
  }

  /** `create_voice`. An empty `model` or `description` stands for the omitted
      argument, and `None` settings for omitted settings; both fall back as Python's
      `or` does. The source reads the `default` entry without a guard, so a fresh
      name needs that entry. */
  function Create(r: Registry, name: string, model: string, settings: Option<Settings>,
                  description: string, createdAt: string): (o: Outcome)
    requires name !in r.voices ==> DefaultName in r.voices
    ensures o.success <==> name !in r.voices
    ensures !o.success ==> o.message == AlreadyExists && o.after == r
    ensures o.success ==>
      && o.message == Created(name)
      && o.after.voices.Keys == r.voices.Keys + {name}
      && o.after.names == r.names + [name]
      && o.after.defaultVoice == r.defaultVoice
      && OthersUnchanged(r.voices, o.after.voices, name)
    ensures o.success ==>
      var stock := r.voices[DefaultName];
      var v := o.after.voices[name];
      && v.model == (if model == "" then stock.model else model)
      && v.settings == settings.GetOr(stock.settings)
      && !v.cloned && v.clonedFrom == None && v.referenceText == None
      && v.createdAt == createdAt
      && v.description == (if description == "" then CustomDescription(name) else description)
    ensures Valid(r) ==> Valid(o.after)
  {
    if name in r.voices then Outcome(false, AlreadyExists, r)
    else
      var stock := r.voices[DefaultName];
      var v := Voice(
        if model == "" then stock.model else model,
        settings.GetOr(stock.settings),
        false, None, None, createdAt,
        if description == "" then CustomDescription(name) else description);
      Outcome(true, Created(name), Registry(r.names + [name], r.voices[name := v], r.defaultVoice))
  }

  /** `clone_voice`. `copied` says whether copying the sample into the library
      succeeded; the copy and the read of the `default` entry sit inside the
      source's `try`, so either failing is reported as a clone error with the
      registry untouched. An existing `default` entry may be overwritten. */
  function Clone(r: Registry, name: string, referenceText: string, description: string,
                 createdAt: string, copied: bool): (o: Outcome)
    ensures o.success <==> (name !in r.voices || name == DefaultName) && copied && DefaultName in r.voices
    ensures name in r.voices && name != DefaultName ==> o.message == AlreadyExists
    ensures !o.success ==> o.after == r
    ensures o.success ==>
      && o.message == Cloned(name)
      && o.after.voices.Keys == r.voices.Keys + {name}
      && o.after.names == (if name in r.voices then r.names else r.names + [name])
      && o.after.defaultVoice == r.defaultVoice
      && OthersUnchanged(r.voices, o.after.voices, name)
    ensures o.success ==>
      var stock := r.voices[DefaultName];
      var v := o.after.voices[name];
      && v.model == stock.model
      && v.settings == stock.settings
      && v.cloned && v.clonedFrom == Some(SamplePath(name)) && v.referenceText == Some(referenceText)
      && v.createdAt == createdAt
      && v.description == (if description == "" then ClonedDescription(name) else description)
    ensures Valid(r) ==> Valid(o.after)
  {
    if name in r.voices && name != DefaultName then Outcome(false, AlreadyExists, r)
    else if !copied || DefaultName !in r.voices then Outcome(false, CloneError, r)
    else
      var stock := r.voices[DefaultName];
      var v := Voice(
        stock.model, stock.settings, true, Some(SamplePath(name)), Some(referenceText), createdAt,
        if description == "" then ClonedDescription(name) else description);
      var names := if name in r.voices then r.names else r.names + [name];
      Outcome(true, Cloned(name), Registry(names, r.voices[name := v], r.defaultVoice))
  }

  /** `s` with every occurrence of `x` removed, order kept. */
  function Without(s: seq<string>, x: string): (r: seq<string>)
    ensures forall y :: y in r <==> y in s && y != x
    ensures Distinct(s) ==> Distinct(r)
    ensures |r| <= |s|
  {
    if |s| == 0 then []
    else if s[0] == x then
      DistinctTail(s);
      Without(s[1..], x)
    else
      var rest := Without(s[1..], x);
      DistinctTail(s);
      if Distinct(s) then DistinctCons(s[0], rest); [s[0]] + rest
      else [s[0]] + rest
  }

  lemma DistinctTail(s: seq<string>)
    requires |s| > 0
    ensures Distinct(s) ==> Distinct(s[1..]) && s[0] !in s[1..]
  {
    if Distinct(s) {
      forall k | 0 <= k < |s[1..]| ensures s[1..][k] != s[0] {
        assert s[1..][k] == s[k + 1];
      }
    }
  }

  lemma DistinctCons(x: string, s: seq<string>)
    requires Distinct(s) && x !in s
    ensures Distinct([x] + s)
  {
    var t := [x] + s;
    forall i, j | 0 <= i < j < |t| ensures t[i] != t[j] {
      assert t[j] == s[j - 1];
      if i > 0 { assert t[i] == s[i - 1]; }
    }
  }

  /** `delete_voice`: refuses an unknown name and the literal `default`; otherwise
      removes the entry and, when it was the default, points the default back at
      `default`. The current default itself is not protected. */
  function Delete(r: Registry, name: string): (o: Outcome)
    ensures o.success <==> name in r.voices && name != DefaultName
    ensures name !in r.voices ==> o.message == NotFound
    ensures name in r.voices && name == DefaultName ==> o.message == DefaultUndeletable
    ensures !o.success ==> o.after == r
    ensures o.success ==>
      && o.message == Deleted(name)
      && o.after.voices.Keys == r.voices.Keys - {name}
      && OthersUnchanged(r.voices, o.after.voices, name)
      && o.after.names == Without(r.names, name)
      && o.after.defaultVoice == (if r.defaultVoice == name then DefaultName else r.defaultVoice)
    ensures Valid(r) ==> Valid(o.after)
  {
    if name !in r.voices then Outcome(false, NotFound, r)
    else if name == DefaultName then Outcome(false, DefaultUndeletable, r)
    else
      var pointer := if r.defaultVoice == name then DefaultName else r.defaultVoice;
      var after := Registry(Without(r.names, name), r.voices - {name}, pointer);
      DeleteKeepsValid(r, name, after);
      Outcome(true, Deleted(name), after)
  }

  lemma DeleteKeepsValid(r: Registry, name: string, after: Registry)
    requires name != DefaultName
    requires after.names == Without(r.names, name)
    requires after.voices == r.voices - {name}
    requires after.defaultVoice == (if r.defaultVoice == name then DefaultName else r.defaultVoice)
    ensures Valid(r) ==> Valid(after)
  {
    if Valid(r) {
      forall i | 0 <= i < |after.names| ensures after.names[i] in after.voices {
        assert after.names[i] in after.names;
      }
    }
  }

  /** Python's `dict.update` on a settings dictionary. */
  function Merge(s: Settings, p: Patch): Settings {
    Settings(
      p.speed.GetOr(s.speed), p.pitch.GetOr(s.pitch), p.volume.GetOr(s.volume),
      p.emotion.GetOr(s.emotion), p.language.GetOr(s.language))
  }

  /** `update_voice_settings`: merges the supplied keys into one voice's settings. */
  function UpdateSettings(r: Registry, name: string, p: Patch): (o: Outcome)
    ensures o.success <==> name in r.voices
    ensures !o.success ==> o.message == NotFound && o.after == r
    ensures o.success ==>
      && o.message == SettingsUpdated
      && o.after.names == r.names && o.after.defaultVoice == r.defaultVoice
      && o.after.voices.Keys == r.voices.Keys
      && OthersUnchanged(r.voices, o.after.voices, name)
    ensures o.success ==>
      var prior := r.voices[name].settings;
      var s := o.after.voices[name].settings;
      && o.after.voices[name] == r.voices[name].(settings := s)
      && s.speed == (if p.speed.Some? then p.speed.value else prior.speed)
      && s.pitch == (if p.pitch.Some? then p.pitch.value else prior.pitch)
      && s.volume == (if p.volume.Some? then p.volume.value else prior.volume)
      && s.emotion == (if p.emotion.Some? then p.emotion.value else prior.emotion)
      && s.language == (if p.language.Some? then p.language.value else prior.language)
    ensures Valid(r) ==> Valid(o.after)
  {
    if name !in r.voices then Outcome(false, NotFound, r)
    else
      var v := r.voices[name];
      Outcome(true, SettingsUpdated, r.(voices := r.voices[name := v.(settings := Merge(v.settings, p))]))
  }

  /** `set_default_voice`: moves the default pointer to an existing voice. */
  function SetDefault(r: Registry, name: string): (o: Outcome)
    ensures o.success <==> name in r.voices
    ensures !o.success ==> o.message == NotFound && o.after == r
    ensures o.success ==>
      && o.message == DefaultSet(name)
      && o.after.defaultVoice == name
      && o.after.names == r.names && o.after.voices == r.voices
    ensures Valid(r) ==> Valid(o.after)
  {
    if name !in r.voices then Outcome(false, NotFound, r)
    else Outcome(true, DefaultSet(name), r.(defaultVoice := name))
  }

  /** The description edit of the dialog, which writes the entry directly;
      `None` stands for the unguarded read of a voice that no longer exists. */
  function SetDescription(r: Registry, name: string, description: string): (after: Option<Registry>)
    ensures after.Some? <==> name in r.voices
    ensures after.Some? ==>
      && after.value.names == r.names && after.value.defaultVoice == r.defaultVoice
      && after.value.voices.Keys == r.voices.Keys
      && OthersUnchanged(r.voices, after.value.voices, name)
      && after.value.voices[name] == r.voices[name].(description := description)
    ensures after.Some? && Valid(r) ==> Valid(after.value)
  {
    if name !in r.voices then None
    else Some(r.(voices := r.voices[name := r.voices[name].(description := description)]))
  }

  /** How many of the listed names are cloned voices. */
  function CountCloned(names: seq<string>, voices: map<string, Voice>): nat
  {
    if |names| == 0 then 0
    else (if names[0] in voices && voices[names[0]].cloned then 1 else 0) + CountCloned(names[1..], voices)
  }

  function ClonedNames(r: Registry): set<string> {
    set n | n in r.voices && r.voices[n].cloned
  }

  function StandardNames(r: Registry): set<string> {
    set n | n in r.voices && !r.voices[n].cloned
  }

  lemma {:induction false} CountClonedIsCardinality(names: seq<string>, voices: map<string, Voice>)
    requires Distinct(names)
    ensures CountCloned(names, voices) == |set n | n in names && n in voices && voices[n].cloned|
    decreases |names|
  {
    if |names| > 0 {
      var rest := names[1..];
      assert Distinct(rest);
      CountClonedIsCardinality(rest, voices);
      var all := set n | n in names && n in voices && voices[n].cloned;
      var tail := set n | n in rest && n in voices && voices[n].cloned;
      assert names[0] !in rest;
      if names[0] in voices && voices[names[0]].cloned {
        assert all == tail + {names[0]};
      } else {
        assert all == tail;
      }
    }
  }

  lemma PartitionSize(r: Registry)
    ensures |r.voices| == |ClonedNames(r)| + |StandardNames(r)|
  {
    assert r.voices.Keys == ClonedNames(r) + StandardNames(r);
    assert ClonedNames(r) !! StandardNames(r);
  }

  /** `get_voice_statistics`: totals over the voices and the default pointer. */
  function Statistics(r: Registry): (s: Stats)
    ensures s.total == |r.voices| && s.defaultName == r.defaultVoice
  {
    var cloned := CountCloned(r.names, r.voices);
    Stats(|r.voices|, cloned, |r.voices| - cloned, r.defaultVoice)
  }

  /** On a valid registry the counts are those of the cloned and the standard voices. */
  lemma StatisticsCountVoices(r: Registry)
    requires Valid(r)
    ensures Statistics(r).cloned == |ClonedNames(r)|
    ensures Statistics(r).standard == |StandardNames(r)|
    ensures Statistics(r).standard + Statistics(r).cloned == Statistics(r).total
  {
    CountClonedIsCardinality(r.names, r.voices);
    assert (set n | n in r.names && n in r.voices && r.voices[n].cloned) == ClonedNames(r);
    PartitionSize(r);
  }
}
