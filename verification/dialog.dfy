/** The per-user dialog of the bot. The session is the flag bag the handlers keep
    in `context.user_data`; one event (a text message, an audio message, a
    button press or a main-menu entry) moves a session and the registry to
    their next values and yields an abstract reply. Text messages are
    dispatched over the flags in the fixed order of `handle_text_input`, audio
    messages in the order of `handle_audio`. */
module Dialog {
  import opened Wrappers
  import opened Text
  import opened Registry
  import opened Validate
  import Menu

  /** The configuration values the dialog reads. */
  datatype Config = Config(maxTextLength: nat, maxVoiceDuration: int)

  const DefaultConfig: Config := Config(1000, 30)

  /** `adjusting_param`: which setting of which voice the next text sets. */
  datatype Adjusting = Adjusting(kind: ParamKind, voice: string)

  /** `context.user_data`. A flag read with `.get(...)` is a `bool`; a key tested
      with `in` is an `Option`. */
  datatype Session = Session(
    adjusting: Option<Adjusting>,
    editingDescription: Option<string>,
    awaitingVoiceName: bool,
    awaitingVoiceDescription: bool,
    newVoiceName: Option<string>,
    awaitingVoiceAudio: bool,
    awaitingClonedVoiceName: bool,
    awaitingClonedVoiceDescription: bool,
    clonedVoiceName: Option<string>,
    voiceAudioPath: Option<string>,
    cloningVoice: Option<string>,
    pendingText: Option<string>)

  const Fresh: Session := Session(None, None, false, false, None, false, false, false, None, None, None, None)

  /** What the world outside the dialog answers while one event is handled:
      the timestamp, the temporary sample path, whether the download worked,
      the measured duration (`None` when measuring failed), whether the stored
      sample still exists, and whether copying it into the library worked. */
  datatype Env = Env(
    now: string,
    tempPath: string,
    downloaded: bool,
    probe: Option<real>,
    sampleExists: bool,
    copied: bool)

  /** A button press, with its voice and value already taken out of the callback data. */
  datatype Callback =
    | SelectVoice(voice: string)
    | Adjust(kind: ParamKind, voice: string)
    | SetEmotion(voice: string, emotion: string)
    | SetLanguage(voice: string, language: string)
    | CloneThis(voice: string)
    | EditDescription(voice: string)
    | DeleteVoice(voice: string)
    | CreateNewVoice
    | ViewOnly

  /** `Text` is a text message: the text and what `float` makes of it
      (`None` for a `ValueError`). Main-menu labels and commands are text
      messages too. `Audio` is a message the audio handler receives: whether
      an audio file is attached, and the message's `text` attribute. Every
      message the handler's voice, audio and audio-document filter lets
      through has `text` equal to `None`; a `Some` stands for the typed answer
      the cloned-voice steps were written to read. */
  datatype Event =
    | Text(raw: string, number: Option<Float>)
    | Audio(attached: bool, text: Option<string>)
    | Button(cb: Callback)

  datatype Reply =
    | Done(success: bool, message: Message)
    | NotANumber
    | OutOfRange(kind: ParamKind)
    | BadEmotion
    | NoReply
    | DescriptionTooLong
    | DescriptionSaved(voice: string)
    | BadName
    | NameInUse
    | AskDescription(name: string)
    | LongText
    | ShortText
    | ChooseVoice
    | UseMenu
    | NoAudioFile
    | AudioFailed
    | AudioTooLong
    | AudioTooShort
    | AskClonedName
    | SampleMissing
    | AudioOnlyWhenCloning
    | AskValue(kind: ParamKind)
    | AskAudio
    | AskName
    | AskNewDescription
    | Shown
    | Crash

  datatype StepResult = StepResult(session: Session, registry: Registry, reply: Reply)

  /** Replies that refuse the input and ask again. */
  predicate Refusal(reply: Reply) {
    || reply.NotANumber? || reply.OutOfRange? || reply.BadEmotion?
    || reply.DescriptionTooLong? || reply.BadName? || reply.NameInUse?
    || reply.LongText? || reply.ShortText?
    || reply.NoAudioFile? || reply.AudioFailed? || reply.AudioTooLong? || reply.AudioTooShort?
    || reply.SampleMissing?
  }

  /** The settings dictionary `{kind: value}` of a numeric edit. */
  function NumberPatch(k: ParamKind, v: real): (p: Patch)
    requires k.Numeric()
    ensures p.speed.Some? <==> k == Speed
    ensures p.pitch.Some? <==> k == Pitch
    ensures p.volume.Some? <==> k == Volume
    ensures p.emotion.None? && p.language.None?
    ensures p.speed.Some? ==> p.speed.value == v
    ensures p.pitch.Some? ==> p.pitch.value == v
    ensures p.volume.Some? ==> p.volume.value == v
  {
    match k
    case Speed => Patch(Some(v), None, None, None, None)
    case Pitch => Patch(None, Some(v), None, None, None)
    case Volume => Patch(None, None, Some(v), None, None)
  }

  function EmotionPatch(e: string): Patch {
    Patch(None, None, None, Some(e), None)
  }

  function LanguagePatch(l: string): Patch {
    Patch(None, None, None, None, Some(l))
  }

  /** The description the description steps store: the generated one when the
      answer is a skip word. */
  function ChosenDescription(answer: string, generated: string): (d: string)
    ensures IsSkipToken(answer) ==> d == generated
    ensures !IsSkipToken(answer) ==> d == answer
  {
    if IsSkipToken(answer) then generated else answer
  }

  // ---------------------------------------------------------------- text steps

  /** A text while `adjusting_param` is set. A number outside the parameter's
      range, a text that is no number, or an unknown emotion is refused with
      session and registry unchanged; otherwise exactly the one setting is
      written and the flag is cleared, whether or not the voice still exists.
      For `language` the text is ignored and only the flag is cleared. */
  function AdjustText(s: Session, r: Registry, a: Adjusting, raw: string, number: Option<Float>): (res: StepResult)
    ensures a.kind.Numeric() && (number.None? || AcceptNumber(a.kind, number.value).None?) ==>
      res.session == s && res.registry == r && Refusal(res.reply)
    ensures a.kind.Numeric() && number.Some? && AcceptNumber(a.kind, number.value).Some? ==>
      var o := UpdateSettings(r, a.voice, NumberPatch(a.kind, number.value.v));
      res.session == s.(adjusting := None) && res.registry == o.after && res.reply == Done(o.success, o.message)
    ensures a.kind == Emotion && Lower(raw) !in Emotions ==>
      res.session == s && res.registry == r && res.reply == BadEmotion
    ensures a.kind == Emotion && Lower(raw) in Emotions ==>
      res.session == s.(adjusting := None) && res.registry == UpdateSettings(r, a.voice, EmotionPatch(Lower(raw))).after
    ensures a.kind == Language ==> res.session == s.(adjusting := None) && res.registry == r
  {
    match a.kind
    case Emotion =>
      var e := Lower(raw);
      if e !in Emotions then StepResult(s, r, BadEmotion)
      else
        var o := UpdateSettings(r, a.voice, EmotionPatch(e));
        StepResult(s.(adjusting := None), o.after, Done(o.success, o.message))
    case Language => StepResult(s.(adjusting := None), r, NoReply)
    case _ =>
      if number.None? then StepResult(s, r, NotANumber)
      else
        match AcceptNumber(a.kind, number.value)
        case None => StepResult(s, r, OutOfRange(a.kind))
        case Some(v) =>
          var o := UpdateSettings(r, a.voice, NumberPatch(a.kind, v));
          StepResult(s.(adjusting := None), o.after, Done(o.success, o.message))
  }

  /** A text while `editing_description` names a voice: a stripped answer of
      more than 200 characters is refused; otherwise it becomes the voice's
      description and the flag is cleared. A voice deleted in the meantime
      makes the handler fail before anything changes. */
  function EditDescriptionText(s: Session, r: Registry, voice: string, raw: string): (res: StepResult)
    ensures |Strip(raw)| > MaxDescription ==> res == StepResult(s, r, DescriptionTooLong)
    ensures |Strip(raw)| <= MaxDescription && voice !in r.voices ==> res == StepResult(s, r, Crash)
    ensures |Strip(raw)| <= MaxDescription && voice in r.voices ==>
      var after := SetDescription(r, voice, Strip(raw));
      && after.Some?
      && res == StepResult(s.(editingDescription := None), after.value, DescriptionSaved(voice))
      && res.registry.voices[voice].description == Strip(raw)
  {
    var d := Strip(raw);
    if |d| > MaxDescription then StepResult(s, r, DescriptionTooLong)
    else
      match SetDescription(r, voice, d)
      case None => StepResult(s, r, Crash)
      case Some(after) => StepResult(s.(editingDescription := None), after, DescriptionSaved(voice))
  }

  /** A text while `awaiting_voice_name`: a name breaking the pattern or already
      present keeps the session in the name step; a valid fresh name moves it
      to the description step. The registry is never touched. */
  function NewNameText(s: Session, r: Registry, raw: string): (res: StepResult)
    ensures res.registry == r
    ensures var name := Strip(raw);
      CheckName(name, VoiceList(r)) != NameOk ==> res.session == s && Refusal(res.reply)
    ensures var name := Strip(raw);
      CheckName(name, VoiceList(r)) == NameOk ==>
        && res.session == s.(newVoiceName := Some(name), awaitingVoiceName := false, awaitingVoiceDescription := true)
        && res.reply == AskDescription(name)
  {
    var name := Strip(raw);
    match CheckName(name, VoiceList(r))
    case BadFormat => StepResult(s, r, BadName)
    case NameTaken => StepResult(s, r, NameInUse)
    case NameOk =>
      StepResult(s.(newVoiceName := Some(name), awaitingVoiceName := false, awaitingVoiceDescription := true),
                 r, AskDescription(name))
  }

  /** A text while `awaiting_voice_description`: `create_voice` is called once
      with the answer, or with the generated description for a skip word, and
      both description flags are cleared whether it succeeded or not. */
  function NewDescriptionText(s: Session, r: Registry, raw: string, now: string): (res: StepResult)
    ensures s.newVoiceName.None? ==> res == StepResult(s, r, Crash)
    ensures s.newVoiceName.Some? && DefaultName in r.voices ==>
      var name := s.newVoiceName.value;
      var o := Create(r, name, "", None, ChosenDescription(Strip(raw), CustomDescription(name)), now);
      && res.session == s.(awaitingVoiceDescription := false, newVoiceName := None)
      && res.registry == o.after
      && res.reply == Done(o.success, o.message)
    ensures (s.newVoiceName.Some? && DefaultName in r.voices && s.newVoiceName.value !in r.voices
             && IsSkipToken(Strip(raw))) ==>
      res.registry.voices[s.newVoiceName.value].description == CustomDescription(s.newVoiceName.value)
  {
    match s.newVoiceName
    case None => StepResult(s, r, Crash)
    case Some(name) =>
      if name !in r.voices && DefaultName !in r.voices then StepResult(s, r, Crash)
      else
        var d := ChosenDescription(Strip(raw), CustomDescription(name));
        var o := Create(r, name, "", None, d, now);
        StepResult(s.(awaitingVoiceDescription := false, newVoiceName := None), o.after, Done(o.success, o.message))
  }

  /** `synthesize_text_handler`: a stripped text of 2 up to the configured
      maximum of characters becomes the pending text; any other is refused. */
  function SynthesisText(cfg: Config, s: Session, r: Registry, raw: string): (res: StepResult)
    ensures res.registry == r
    ensures 2 <= |Strip(raw)| <= cfg.maxTextLength ==>
      res.session == s.(pendingText := Some(Strip(raw))) && res.reply == ChooseVoice
    ensures !(2 <= |Strip(raw)| <= cfg.maxTextLength) ==> res.session == s && Refusal(res.reply)
  {
    var text := Strip(raw);
    match CheckText(text, cfg.maxTextLength)
    case TextTooLong => StepResult(s, r, LongText)
    case TextTooShort => StepResult(s, r, ShortText)
    case TextOk => StepResult(s.(pendingText := Some(text)), r, ChooseVoice)
  }

  /** `handle_text_input`: the flags are tried in a fixed order. */
  function TextStep(cfg: Config, env: Env, s: Session, r: Registry, raw: string, number: Option<Float>): (res: StepResult)
    ensures s.adjusting.Some? ==> res == AdjustText(s, r, s.adjusting.value, raw, number)
    ensures s.adjusting.None? && s.editingDescription.Some? ==>
      res == EditDescriptionText(s, r, s.editingDescription.value, raw)
    ensures s.adjusting.None? && s.editingDescription.None? && s.awaitingVoiceName ==>
      res == NewNameText(s, r, raw)
    ensures s.adjusting.None? && s.editingDescription.None? && !s.awaitingVoiceName && s.awaitingVoiceDescription ==>
      res == NewDescriptionText(s, r, raw, env.now)
    ensures s.adjusting.None? && s.editingDescription.None? && !s.awaitingVoiceName && !s.awaitingVoiceDescription ==>
      res.registry == r
  {
    if s.adjusting.Some? then AdjustText(s, r, s.adjusting.value, raw, number)
    else if s.editingDescription.Some? then EditDescriptionText(s, r, s.editingDescription.value, raw)
    else if s.awaitingVoiceName then NewNameText(s, r, raw)
    else if s.awaitingVoiceDescription then NewDescriptionText(s, r, raw, env.now)
    else if s.pendingText.Some? then SynthesisText(cfg, s, r, raw)
    else StepResult(s, r, UseMenu)
  }

  // --------------------------------------------------------------- audio steps

  /** An audio message while `awaiting_voice_audio`: without an attached file,
      after a failed download, or with a measured duration outside
      1.0..max seconds the sample is refused and nothing changes; otherwise
      (also when measuring failed) the temporary path is kept and the dialog
      asks for the cloned voice's name. The registry is never touched. */
  function AwaitAudio(cfg: Config, env: Env, s: Session, r: Registry, attached: bool): (res: StepResult)
    ensures res.registry == r
    ensures !attached || !env.downloaded || CheckDuration(env.probe, cfg.maxVoiceDuration) != DurationOk ==>
      res.session == s && Refusal(res.reply)
    ensures attached && env.downloaded && CheckDuration(env.probe, cfg.maxVoiceDuration) == DurationOk ==>
      && res.session == s.(voiceAudioPath := Some(env.tempPath), awaitingVoiceAudio := false,
                           awaitingClonedVoiceName := true)
      && res.reply == AskClonedName
  {
    if !attached then StepResult(s, r, NoAudioFile)
    else if !env.downloaded then StepResult(s, r, AudioFailed)
    else
      match CheckDuration(env.probe, cfg.maxVoiceDuration)
      case DurationTooLong => StepResult(s, r, AudioTooLong)
      case DurationTooShort => StepResult(s, r, AudioTooShort)
      case DurationOk =>
        StepResult(s.(voiceAudioPath := Some(env.tempPath), awaitingVoiceAudio := false,
                      awaitingClonedVoiceName := true), r, AskClonedName)
  }

  /** The cloned-voice name branch of `handle_audio`: the same name rule as
      the new-voice name step, applied to the message's `text`. On a message
      without text, which is every message this handler receives, reading it
      fails the handler. */
  function ClonedNameAudio(s: Session, r: Registry, text: Option<string>): (res: StepResult)
    ensures res.registry == r
    ensures text.None? ==> res == StepResult(s, r, Crash)
    ensures text.Some? && CheckName(Strip(text.value), VoiceList(r)) != NameOk ==>
      res.session == s && Refusal(res.reply)
    ensures text.Some? && CheckName(Strip(text.value), VoiceList(r)) == NameOk ==>
      && res.session == s.(clonedVoiceName := Some(Strip(text.value)), awaitingClonedVoiceName := false,
                           awaitingClonedVoiceDescription := true)
      && res.reply == AskDescription(Strip(text.value))
  {
    match text
    case None => StepResult(s, r, Crash)
    case Some(raw) =>
      var name := Strip(raw);
      match CheckName(name, VoiceList(r))
      case BadFormat => StepResult(s, r, BadName)
      case NameTaken => StepResult(s, r, NameInUse)
      case NameOk =>
        StepResult(s.(clonedVoiceName := Some(name), awaitingClonedVoiceName := false,
                      awaitingClonedVoiceDescription := true), r, AskDescription(name))
  }

  /** The cloned-voice description branch of `handle_audio`. It reads the
      message's `text` first, so a message without text, which is every
      message this handler receives, fails the handler. Given a text and the
      stored sample, `clone_voice` is called once and the three clone flags
      are cleared whether it succeeded or not; a missing sample is refused
      with nothing changed. */
  function ClonedDescriptionAudio(env: Env, s: Session, r: Registry, text: Option<string>): (res: StepResult)
    ensures s.clonedVoiceName.None? || text.None? ==> res == StepResult(s, r, Crash)
    ensures s.clonedVoiceName.Some? && text.Some? && (s.voiceAudioPath.None? || !env.sampleExists) ==>
      res == StepResult(s, r, SampleMissing)
    ensures s.clonedVoiceName.Some? && text.Some? && s.voiceAudioPath.Some? && env.sampleExists ==>
      var name := s.clonedVoiceName.value;
      var o := Clone(r, name, "", ChosenDescription(Strip(text.value), ClonedDescription(name)), env.now, env.copied);
      && res.session == s.(awaitingClonedVoiceDescription := false, clonedVoiceName := None, voiceAudioPath := None)
      && res.registry == o.after
      && res.reply == Done(o.success, o.message)
  {
    if s.clonedVoiceName.None? || text.None? then StepResult(s, r, Crash)
    else
      var name := s.clonedVoiceName.value;
      var d := ChosenDescription(Strip(text.value), ClonedDescription(name));
      if s.voiceAudioPath.None? || !env.sampleExists then StepResult(s, r, SampleMissing)
      else
        var o := Clone(r, name, "", d, env.now, env.copied);
        StepResult(s.(awaitingClonedVoiceDescription := false, clonedVoiceName := None, voiceAudioPath := None),
                   o.after, Done(o.success, o.message))
  }

  /** The `cloning_voice` branch of `handle_audio` (the "clone this voice"
      button): only the upper duration bound is checked, then `clone_voice` is
      called under the button's voice name and the flag is cleared. */
  function CloningVoiceAudio(cfg: Config, env: Env, s: Session, r: Registry, voice: string, attached: bool): (res: StepResult)
    ensures !attached || !env.downloaded || CheckDuration(env.probe, cfg.maxVoiceDuration) == DurationTooLong ==>
      res.session == s && res.registry == r && Refusal(res.reply)
    ensures attached && env.downloaded && CheckDuration(env.probe, cfg.maxVoiceDuration) != DurationTooLong ==>
      var o := Clone(r, voice, "", "", env.now, env.copied);
      res.session == s.(cloningVoice := None) && res.registry == o.after && res.reply == Done(o.success, o.message)
  {
    if !attached then StepResult(s, r, NoAudioFile)
    else if !env.downloaded then StepResult(s, r, AudioFailed)
    else if CheckDuration(env.probe, cfg.maxVoiceDuration) == DurationTooLong then StepResult(s, r, AudioTooLong)
    else
      var o := Clone(r, voice, "", "", env.now, env.copied);
      StepResult(s.(cloningVoice := None), o.after, Done(o.success, o.message))
  }

  /** `handle_audio`: the flags are tried in a fixed order. */
  function AudioStep(cfg: Config, env: Env, s: Session, r: Registry, attached: bool, text: Option<string>): (res: StepResult)
    ensures s.awaitingVoiceAudio ==> res == AwaitAudio(cfg, env, s, r, attached)
    ensures !s.awaitingVoiceAudio && s.awaitingClonedVoiceName ==> res == ClonedNameAudio(s, r, text)
    ensures !s.awaitingVoiceAudio && !s.awaitingClonedVoiceName && s.awaitingClonedVoiceDescription ==>
      res == ClonedDescriptionAudio(env, s, r, text)
    ensures (!s.awaitingVoiceAudio && !s.awaitingClonedVoiceName && !s.awaitingClonedVoiceDescription
             && s.cloningVoice.Some?) ==> res == CloningVoiceAudio(cfg, env, s, r, s.cloningVoice.value, attached)
    ensures (!s.awaitingVoiceAudio && !s.awaitingClonedVoiceName && !s.awaitingClonedVoiceDescription
             && s.cloningVoice.None?) ==> res == StepResult(s, r, AudioOnlyWhenCloning)
  {
    if s.awaitingVoiceAudio then AwaitAudio(cfg, env, s, r, attached)
    else if s.awaitingClonedVoiceName then ClonedNameAudio(s, r, text)
    else if s.awaitingClonedVoiceDescription then ClonedDescriptionAudio(env, s, r, text)
    else if s.cloningVoice.Some? then CloningVoiceAudio(cfg, env, s, r, s.cloningVoice.value, attached)
    else StepResult(s, r, AudioOnlyWhenCloning)
  }

  // ------------------------------------------------------------- button steps

  /** The branches of `button_callback` that read or write the session or the
      registry. The `adjust_` and `edit_desc_` buttons set their flag before
      reading the voice, so a vanished voice fails the handler with the flag set. */
  function ButtonStep(s: Session, r: Registry, cb: Callback): (res: StepResult)
    ensures cb.SelectVoice? ==> res.session == s && res.registry == SetDefault(r, cb.voice).after
    ensures cb.SetEmotion? ==> res.session == s && res.registry == UpdateSettings(r, cb.voice, EmotionPatch(cb.emotion)).after
    ensures cb.SetLanguage? ==> res.session == s && res.registry == UpdateSettings(r, cb.voice, LanguagePatch(cb.language)).after
    ensures cb.DeleteVoice? ==> res.session == s && res.registry == Delete(r, cb.voice).after
    ensures cb.Adjust? ==> res.registry == r && res.session == s.(adjusting := Some(Adjusting(cb.kind, cb.voice)))
    ensures cb.EditDescription? ==> res.registry == r && res.session == s.(editingDescription := Some(cb.voice))
    ensures cb.CloneThis? ==> res.registry == r && res.session == s.(cloningVoice := Some(cb.voice))
    ensures cb.CreateNewVoice? ==> res.registry == r && res.session == s.(awaitingVoiceName := true)
    ensures cb.ViewOnly? ==> res.registry == r && res.session == s
  {
    match cb
    case SelectVoice(v) =>
      var o := SetDefault(r, v);
      StepResult(s, o.after, Done(o.success, o.message))
    case Adjust(kind, v) =>
      var s' := s.(adjusting := Some(Adjusting(kind, v)));
      if v !in r.voices then StepResult(s', r, Crash) else StepResult(s', r, AskValue(kind))
    case SetEmotion(v, e) =>
      var o := UpdateSettings(r, v, EmotionPatch(e));
      StepResult(s, o.after, Done(o.success, o.message))
    case SetLanguage(v, l) =>
      var o := UpdateSettings(r, v, LanguagePatch(l));
      StepResult(s, o.after, Done(o.success, o.message))
    case CloneThis(v) => StepResult(s.(cloningVoice := Some(v)), r, AskAudio)
    case EditDescription(v) =>
      var s' := s.(editingDescription := Some(v));
      if v !in r.voices then StepResult(s', r, Crash) else StepResult(s', r, AskNewDescription)
    case DeleteVoice(v) =>
      var o := Delete(r, v);
      StepResult(s, o.after, Done(o.success, o.message))
    case CreateNewVoice => StepResult(s.(awaitingVoiceName := true), r, AskName)
    case ViewOnly => StepResult(s, r, Shown)
  }

  // --------------------------------------------------------------- menu steps

  /** The handlers of the main-menu labels. Only "create" and "clone" write
      the session: each sets the first flag of its flow and leaves every
      other flag as it was. The others only show a text or a keyboard. */
  function MenuStep(s: Session, r: Registry, m: Menu.Entry): (res: StepResult)
    ensures res.registry == r
    ensures m == Menu.CreateVoice ==> res.session == s.(awaitingVoiceName := true) && res.reply == AskName
    ensures m == Menu.CloneVoice ==> res.session == s.(awaitingVoiceAudio := true) && res.reply == AskAudio
    ensures m != Menu.CreateVoice && m != Menu.CloneVoice ==> res.session == s && res.reply == Shown
  {
    match m
    case CreateVoice => StepResult(s.(awaitingVoiceName := true), r, AskName)
    case CloneVoice => StepResult(s.(awaitingVoiceAudio := true), r, AskAudio)
    case _ => StepResult(s, r, Shown)
  }

  // ------------------------------------------------------------------- step

  /** A text message, routed as the handlers are registered: a command to
      its command handler (which only shows a text) or to none, a main-menu
      label to its own handler, every other text to `handle_text_input`. */
  function TextEvent(cfg: Config, env: Env, s: Session, r: Registry, raw: string, number: Option<Float>): (res: StepResult)
    ensures Valid(r) ==> Valid(res.registry)
    ensures Refusal(res.reply) ==> res.session == s && res.registry == r
    ensures Menu.IsCommand(raw) ==> res == StepResult(s, r, Shown)
    ensures !Menu.IsCommand(raw) && Menu.EntryOf(raw).Some? ==> res == MenuStep(s, r, Menu.EntryOf(raw).value)
    ensures Menu.DialogText(raw) ==> res == TextStep(cfg, env, s, r, raw, number)
  {
    if Menu.IsCommand(raw) then StepResult(s, r, Shown)
    else
      var entry := Menu.EntryOf(raw);
      if entry.Some? then MenuStep(s, r, entry.value)
      else TextStep(cfg, env, s, r, raw, number)
  }

  /** One event of one user. Every registry change it makes is one of the
      registry operations, so the registry invariants survive every step. */
  function Step(cfg: Config, env: Env, s: Session, r: Registry, e: Event): (res: StepResult)
    ensures Valid(r) ==> Valid(res.registry)
    ensures Refusal(res.reply) ==> res.session == s && res.registry == r
  {
    match e
    case Text(raw, number) => TextEvent(cfg, env, s, r, raw, number)
    case Audio(attached, text) => AudioStep(cfg, env, s, r, attached, text)
    case Button(cb) => ButtonStep(s, r, cb)
  }
}
