/** Properties of the dialog over single steps and over runs of events: the
    registry and session invariants, what each flow achieves end to end, how
    menu labels and commands bypass the dialog, and a few concrete runs. */
module DialogProps {
  import opened Wrappers
  import opened Text
  import opened Registry
  import opened Validate
  import opened Dialog
  import Menu

  /** The payload a step flag relies on is present. */
  predicate SessionWf(s: Session) {
    && (s.awaitingVoiceDescription ==> s.newVoiceName.Some?)
    && (s.awaitingClonedVoiceName ==> s.voiceAudioPath.Some?)
    && (s.awaitingClonedVoiceDescription ==> s.clonedVoiceName.Some? && s.voiceAudioPath.Some?)
  }

  lemma TextPreservesWf(cfg: Config, env: Env, s: Session, r: Registry, raw: string, number: Option<Float>)
    requires SessionWf(s)
    ensures SessionWf(TextStep(cfg, env, s, r, raw, number).session)
  {
    if s.adjusting.Some? {
      var res := AdjustText(s, r, s.adjusting.value, raw, number);
      assert res.session == s || res.session == s.(adjusting := None);
    } else if s.editingDescription.Some? {
    } else if s.awaitingVoiceName {
    } else if s.awaitingVoiceDescription {
    } else if s.pendingText.Some? {
    }
  }

  lemma AudioPreservesWf(cfg: Config, env: Env, s: Session, r: Registry, attached: bool, text: Option<string>)
    requires SessionWf(s)
    ensures SessionWf(AudioStep(cfg, env, s, r, attached, text).session)
  {
    if s.awaitingVoiceAudio {
    } else if s.awaitingClonedVoiceName {
    } else if s.awaitingClonedVoiceDescription {
    } else if s.cloningVoice.Some? {
      var res := CloningVoiceAudio(cfg, env, s, r, s.cloningVoice.value, attached);
      assert res.session == s || res.session == s.(cloningVoice := None);
    }
  }

  lemma TextEventPreservesWf(cfg: Config, env: Env, s: Session, r: Registry, raw: string, number: Option<Float>)
    requires SessionWf(s)
    ensures SessionWf(TextEvent(cfg, env, s, r, raw, number).session)
  {
    if Menu.DialogText(raw) {
      TextPreservesWf(cfg, env, s, r, raw, number);
    }
  }

  lemma StepPreservesWf(cfg: Config, env: Env, s: Session, r: Registry, e: Event)
    requires SessionWf(s)
    ensures SessionWf(Step(cfg, env, s, r, e).session)
  {
    match e
    case Text(raw, number) => TextEventPreservesWf(cfg, env, s, r, raw, number);
    case Audio(attached, text) => AudioPreservesWf(cfg, env, s, r, attached, text);
    case _ =>
  }

  /** On a well-formed session the new-voice description step never fails
      for want of its name, and the cloned-voice description step, once given
      a typed answer, never for want of its name or sample path. */
  lemma WfDescriptionStepsDoNotCrash(env: Env, s: Session, r: Registry, raw: string)
    requires SessionWf(s) && Valid(r)
    ensures s.awaitingVoiceDescription ==> NewDescriptionText(s, r, raw, env.now).reply.Done?
    ensures s.awaitingClonedVoiceDescription && env.sampleExists ==>
      ClonedDescriptionAudio(env, s, r, Some(raw)).reply.Done?
  {
  }

  /** The cloned-voice name and description steps read the `text` of the
      message the audio handler received, and every such message has none:
      once the sample is accepted the handler fails on every later audio
      message, and nothing changes. */
  lemma ClonedStepsCrashOnAudio(cfg: Config, env: Env, s: Session, r: Registry, attached: bool)
    requires !s.awaitingVoiceAudio && (s.awaitingClonedVoiceName || s.awaitingClonedVoiceDescription)
    ensures Step(cfg, env, s, r, Audio(attached, None)) == StepResult(s, r, Crash)
  {
  }

  /** The cloned-voice flow as the two steps were written to work, with the
      user's typed name and answer in hand: a sample already accepted, then a
      valid fresh name, then an answer clone that voice from the sample, with
      the generated description for a skip word, and clear every clone flag. */
  lemma ClonedFlowWithText(cfg: Config, env1: Env, env2: Env, s: Session, r: Registry,
                           name: string, answer: string, attached: bool)
    requires Valid(r) && SessionWf(s)
    requires !s.awaitingVoiceAudio && s.awaitingClonedVoiceName
    requires ValidName(name) && name !in r.voices
    requires env2.sampleExists && env2.copied
    ensures var mid := Step(cfg, env1, s, r, Audio(attached, Some(name)));
      var last := Step(cfg, env2, mid.session, mid.registry, Audio(attached, Some(answer)));
      && mid.registry == r && mid.reply == AskDescription(name)
      && last.reply == Done(true, Cloned(name))
      && name in last.registry.voices
      && last.registry.voices[name].cloned
      && last.registry.voices[name].clonedFrom == Some(SamplePath(name))
      && DescribedBy(last.registry.voices[name].description, ClonedDescription(name), Strip(answer))
      && OthersUnchanged(r.voices, last.registry.voices, name)
      && VoiceList(last.registry) == VoiceList(r) + [name]
      && !last.session.awaitingClonedVoiceDescription && last.session.clonedVoiceName.None?
      && last.session.voiceAudioPath.None?
  {
    StripKeepsValidName(name);
    FreshNamePasses(r, name);
    var s1 := s.(clonedVoiceName := Some(name), awaitingClonedVoiceName := false,
                 awaitingClonedVoiceDescription := true);
    assert ClonedNameAudio(s, r, Some(name)) == StepResult(s1, r, AskDescription(name));
    var d := ChosenDescription(Strip(answer), ClonedDescription(name));
    var o := Clone(r, name, "", d, env2.now, env2.copied);
    assert ClonedDescriptionAudio(env2, s1, r, Some(answer))
        == StepResult(s1.(awaitingClonedVoiceDescription := false, clonedVoiceName := None, voiceAudioPath := None),
                      o.after, Done(o.success, o.message));
  }

  datatype Input = Input(env: Env, event: Event)

  /** The state after handling `inputs` one after another. */
  function Run(cfg: Config, s: Session, r: Registry, inputs: seq<Input>): StepResult
    decreases |inputs|
  {
    if |inputs| == 0 then StepResult(s, r, Shown)
    else
      var first := Step(cfg, inputs[0].env, s, r, inputs[0].event);
      Run(cfg, first.session, first.registry, inputs[1..])
  }

  /** Along any run the registry invariants hold: `default` exists and the
      default pointer names an existing voice. */
  lemma {:induction false} RunPreservesValid(cfg: Config, s: Session, r: Registry, inputs: seq<Input>)
    requires Valid(r)
    ensures Valid(Run(cfg, s, r, inputs).registry)
    ensures DefaultName in Run(cfg, s, r, inputs).registry.voices
    decreases |inputs|
  {
    if |inputs| > 0 {
      var first := Step(cfg, inputs[0].env, s, r, inputs[0].event);
      RunPreservesValid(cfg, first.session, first.registry, inputs[1..]);
    }
  }

  lemma {:induction false} RunPreservesWf(cfg: Config, s: Session, r: Registry, inputs: seq<Input>)
    requires SessionWf(s)
    ensures SessionWf(Run(cfg, s, r, inputs).session)
    decreases |inputs|
  {
    if |inputs| > 0 {
      var first := Step(cfg, inputs[0].env, s, r, inputs[0].event);
      StepPreservesWf(cfg, inputs[0].env, s, r, inputs[0].event);
      RunPreservesWf(cfg, first.session, first.registry, inputs[1..]);
    }
  }

  /** Only the synthesis-text step writes `pending_text`, and it is reached
      only when `pending_text` is already set: a session without one never
      gains one. */
  lemma StepKeepsPendingTextUnset(cfg: Config, env: Env, s: Session, r: Registry, e: Event)
    requires s.pendingText.None?
    ensures Step(cfg, env, s, r, e).session.pendingText.None?
  {
    match e
    case Text(raw, number) =>
      if Menu.DialogText(raw) && s.adjusting.Some? {
        var res := AdjustText(s, r, s.adjusting.value, raw, number);
        assert res.session == s || res.session == s.(adjusting := None);
      }
    case Audio(attached, text) =>
      if !s.awaitingVoiceAudio && !s.awaitingClonedVoiceName && !s.awaitingClonedVoiceDescription
         && s.cloningVoice.Some? {
        var res := CloningVoiceAudio(cfg, env, s, r, s.cloningVoice.value, attached);
        assert res.session == s || res.session == s.(cloningVoice := None);
      }
    case _ =>
  }

  lemma {:induction false} RunKeepsPendingTextUnset(cfg: Config, s: Session, r: Registry, inputs: seq<Input>)
    requires s.pendingText.None?
    ensures Run(cfg, s, r, inputs).session.pendingText.None?
    decreases |inputs|
  {
    if |inputs| > 0 {
      var first := Step(cfg, inputs[0].env, s, r, inputs[0].event);
      StepKeepsPendingTextUnset(cfg, inputs[0].env, s, r, inputs[0].event);
      RunKeepsPendingTextUnset(cfg, first.session, first.registry, inputs[1..]);
    }
  }

  /** A valid voice name has no surrounding whitespace, so stripping keeps it. */
  lemma StripKeepsValidName(name: string)
    requires ValidName(name)
    ensures Strip(name) == name
  {
    assert IsNameChar(name[0]) && IsNameChar(name[|name| - 1]);
    StripKeeps(name);
  }

  /** A session in the new-voice name step and nothing before it in the dispatch order. */
  predicate InNameStep(s: Session) {
    s.adjusting.None? && s.editingDescription.None? && s.awaitingVoiceName
  }

  /** The session after a valid name in the new-voice name step. */
  function AfterName(s: Session, name: string): Session {
    s.(newVoiceName := Some(name), awaitingVoiceName := false, awaitingVoiceDescription := true)
  }

  /** A valid name absent from a valid registry passes the name check. */
  lemma FreshNamePasses(r: Registry, name: string)
    requires Valid(r) && ValidName(name) && name !in r.voices
    ensures CheckName(name, VoiceList(r)) == NameOk
  {
  }

  /** The name step's text handler takes a name that is already stripped and passes the check. */
  lemma NameTextAccepts(s: Session, r: Registry, name: string)
    requires Strip(name) == name && CheckName(name, VoiceList(r)) == NameOk
    ensures NewNameText(s, r, name) == StepResult(AfterName(s, name), r, AskDescription(name))
  {
  }

  /** The new-voice name step takes a valid fresh name and touches nothing
      else; such a name is never a menu label or a command. */
  lemma NameStepAccepts(cfg: Config, env: Env, s: Session, r: Registry, name: string, n: Option<Float>)
    requires Valid(r) && InNameStep(s)
    requires ValidName(name) && name !in r.voices
    ensures Step(cfg, env, s, r, Text(name, n)) == StepResult(AfterName(s, name), r, AskDescription(name))
  {
    StripKeepsValidName(name);
    FreshNamePasses(r, name);
    NameTextAccepts(s, r, name);
    Menu.ValidNameIsDialogText(name);
    assert TextStep(cfg, env, s, r, name, n) == NewNameText(s, r, name);
  }

  /** The description a voice gets from the answer to the description
      question: the generated one for a skip word or an empty answer, the
      answer itself otherwise. */
  predicate DescribedBy(description: string, generated: string, answer: string) {
    && (IsSkipToken(answer) || answer == "" ==> description == generated)
    && (!IsSkipToken(answer) && answer != "" ==> description == answer)
  }

  /** The description step that follows creates exactly that voice and
      clears the flow, whatever the answer, as long as the answer is a text
      the dialog receives at all (not a menu label or a command). */
  lemma DescriptionStepCreates(cfg: Config, env: Env, s: Session, r: Registry, name: string,
                               answer: string, n: Option<Float>)
    requires Valid(r) && InNameStep(s) && name !in r.voices
    requires Menu.DialogText(answer)
    ensures var last := Step(cfg, env, AfterName(s, name), r, Text(answer, n));
      && name in last.registry.voices
      && DescribedBy(last.registry.voices[name].description, CustomDescription(name), Strip(answer))
      && !last.registry.voices[name].cloned
      && OthersUnchanged(r.voices, last.registry.voices, name)
      && last.registry.defaultVoice == r.defaultVoice
      && VoiceList(last.registry) == VoiceList(r) + [name]
      && !last.session.awaitingVoiceDescription && last.session.newVoiceName.None?
  {
    var s1 := AfterName(s, name);
    var d := ChosenDescription(Strip(answer), CustomDescription(name));
    var o := Create(r, name, "", None, d, env.now);
    assert NewDescriptionText(s1, r, answer, env.now)
        == StepResult(s1.(awaitingVoiceDescription := false, newVoiceName := None), o.after, Done(o.success, o.message));
    assert TextStep(cfg, env, s1, r, answer, n) == NewDescriptionText(s1, r, answer, env.now);
  }

  /** The new-voice flow end to end: a valid fresh name and then any answer
      that reaches the dialog create that voice, with the generated
      description for a skip word, leave every other voice as it was, and
      clear both name-flow flags. */
  lemma NewVoiceFlow(cfg: Config, env1: Env, env2: Env, s: Session, r: Registry,
                     name: string, answer: string, n1: Option<Float>, n2: Option<Float>)
    requires Valid(r) && InNameStep(s)
    requires ValidName(name) && name !in r.voices
    requires Menu.DialogText(answer)
    ensures var mid := Step(cfg, env1, s, r, Text(name, n1));
      var last := Step(cfg, env2, mid.session, mid.registry, Text(answer, n2));
      && mid.registry == r && mid.session.awaitingVoiceDescription
      && name in last.registry.voices
      && DescribedBy(last.registry.voices[name].description, CustomDescription(name), Strip(answer))
      && OthersUnchanged(r.voices, last.registry.voices, name)
      && VoiceList(last.registry) == VoiceList(r) + [name]
      && !last.session.awaitingVoiceDescription && last.session.newVoiceName.None?
  {
    NameStepAccepts(cfg, env1, s, r, name, n1);
    DescriptionStepCreates(cfg, env2, s, r, name, answer, n2);
  }

  lemma AbcIsValidName()
    ensures ValidName("abc")
  {
    assert forall i :: 0 <= i < 3 ==> IsNameChar("abc"[i]);
  }

  lemma DashIsSkip()
    ensures Strip("-") == "-" && IsSkipToken("-") && Menu.DialogText("-")
  {
    StripKeeps("-");
  }

  /** Naming a voice `abc` and answering `-` to the description question
      gives a voice `abc` with the generated description. */
  lemma AbcThenDash(cfg: Config, env1: Env, env2: Env, now: string)
    ensures var r := Initial(now);
      var mid := Step(cfg, env1, Fresh.(awaitingVoiceName := true), r, Text("abc", None));
      var last := Step(cfg, env2, mid.session, mid.registry, Text("-", None));
      && "abc" in last.registry.voices
      && last.registry.voices["abc"].description == "Пользовательский голос: abc"
      && "abc" in VoiceList(last.registry)
  {
    var r := Initial(now);
    var s := Fresh.(awaitingVoiceName := true);
    assert "abc" !in r.voices;
    AbcIsValidName();
    DashIsSkip();
    NewVoiceFlow(cfg, env1, env2, s, r, "abc", "-", None, None);
    var mid := Step(cfg, env1, s, r, Text("abc", None));
    var last := Step(cfg, env2, mid.session, mid.registry, Text("-", None));
    assert DescribedBy(last.registry.voices["abc"].description, CustomDescription("abc"), "-");
  }

  /** A session adjusting `kind` of `voice`, nothing else pending before it. */
  predicate IsAdjusting(s: Session, kind: ParamKind, voice: string) {
    s.adjusting == Some(Dialog.Adjusting(kind, voice))
  }

  /** While adjusting the speed, a text reading 3.5 is refused with nothing
      changed, and one reading 1.2 then sets the speed, keeps every other
      setting and voice, and clears the flag. */
  lemma SpeedScenario(cfg: Config, env: Env, s: Session, r: Registry, voice: string, raw1: string, raw2: string)
    requires Valid(r) && voice in r.voices && IsAdjusting(s, Speed, voice)
    requires Menu.DialogText(raw1) && Menu.DialogText(raw2)
    ensures var first := Step(cfg, env, s, r, Text(raw1, Some(Finite(3.5))));
      && first.session == s && first.registry == r && first.reply == OutOfRange(Speed)
      && var second := Step(cfg, env, first.session, first.registry, Text(raw2, Some(Finite(1.2))));
      && second.session == s.(adjusting := None)
      && second.registry.voices[voice].settings == r.voices[voice].settings.(speed := 1.2)
      && OthersUnchanged(r.voices, second.registry.voices, voice)
  {
  }

  /** A 45 second sample with the stock 30 second limit is refused before
      anything changes. */
  lemma LongSampleRefused(env: Env, s: Session, r: Registry, text: Option<string>)
    requires s.awaitingVoiceAudio && env.downloaded && env.probe == Some(45.0)
    ensures var res := Step(DefaultConfig, env, s, r, Audio(true, text));
      res.session == s && res.registry == r && res.reply == AudioTooLong
  {
  }

  /** The "clone this voice" button is offered for an existing voice other than
      `default`, and `clone_voice` refuses every existing name but `default`:
      the audio that follows never changes the registry. */
  lemma CloneThisNeverClones(cfg: Config, env: Env, s: Session, r: Registry, voice: string, attached: bool)
    requires voice in r.voices && voice != DefaultName
    ensures var res := CloningVoiceAudio(cfg, env, s, r, voice, attached);
      res.registry == r && (res.reply.Done? ==> res.reply == Done(false, AlreadyExists))
  {
  }

  /** A measured duration outside 1.0..max seconds never lets the flow advance;
      a failed measurement always lets a downloaded sample through. */
  lemma SampleDurationGate(cfg: Config, env: Env, s: Session, r: Registry)
    requires s.awaitingVoiceAudio
    ensures env.probe.Some? && (env.probe.value < 1.0 || env.probe.value > cfg.maxVoiceDuration as real) ==>
      Step(cfg, env, s, r, Audio(true, None)).session == s
    ensures env.probe.None? && env.downloaded ==>
      Step(cfg, env, s, r, Audio(true, None)).session.voiceAudioPath == Some(env.tempPath)
  {
  }

  /** A main-menu label other than "create" and "clone" goes to its own
      handler whatever step the dialog is in: the session and the registry
      stay as they were. */
  lemma MenuLabelKeepsDialog(cfg: Config, env: Env, s: Session, r: Registry, m: Menu.Entry, n: Option<Float>)
    requires m != Menu.CreateVoice && m != Menu.CloneVoice
    ensures Step(cfg, env, s, r, Text(Menu.Label(m), n)) == StepResult(s, r, Shown)
  {
    Menu.EntryOfLabel(m);
    assert !Menu.IsCommand(Menu.Label(m));
  }

  /** The "create" and "clone" labels start their flow from whatever step the
      dialog is in, and touch no other flag. */
  lemma MenuLabelStartsFlow(cfg: Config, env: Env, s: Session, r: Registry, n: Option<Float>)
    ensures Step(cfg, env, s, r, Text(Menu.Label(Menu.CreateVoice), n))
         == StepResult(s.(awaitingVoiceName := true), r, AskName)
    ensures Step(cfg, env, s, r, Text(Menu.Label(Menu.CloneVoice), n))
         == StepResult(s.(awaitingVoiceAudio := true), r, AskAudio)
  {
    Menu.EntryOfLabel(Menu.CreateVoice);
    Menu.EntryOfLabel(Menu.CloneVoice);
  }

  /** A command never reaches the dialog: session and registry stay as they were. */
  lemma CommandKeepsDialog(cfg: Config, env: Env, s: Session, r: Registry, raw: string, n: Option<Float>)
    requires Menu.IsCommand(raw)
    ensures Step(cfg, env, s, r, Text(raw, n)) == StepResult(s, r, Shown)
  {
  }

  /** Answering `/skip` to the description question creates nothing, and
      tapping "my voices" while editing a description keeps the old
      description and the editing flag. */
  lemma SlashSkipAndLabelIgnored(cfg: Config, env: Env, s: Session, r: Registry, n: Option<Float>)
    ensures Step(cfg, env, s.(awaitingVoiceDescription := true), r, Text("/skip", n))
         == StepResult(s.(awaitingVoiceDescription := true), r, Shown)
    ensures s.editingDescription.Some? ==>
      Step(cfg, env, s, r, Text(Menu.Label(Menu.MyVoices), n)) == StepResult(s, r, Shown)
  {
    CommandKeepsDialog(cfg, env, s.(awaitingVoiceDescription := true), r, "/skip", n);
    MenuLabelKeepsDialog(cfg, env, s, r, Menu.MyVoices, n);
  }

  /** The skip words are recognised in any letter case, Cyrillic included,
      and only as whole answers. */
  lemma SkipWordsAnyCase(generated: string)
    ensures ChosenDescription("SKIP", generated) == generated
    ensures ChosenDescription("Skip", generated) == generated
    ensures ChosenDescription("ПРОПУСТИТЬ", generated) == generated
    ensures ChosenDescription("skipx", generated) == "skipx"
  {
    assert Lower("SKIP") == "skip";
    assert Lower("Skip") == "skip";
    assert Lower("ПРОПУСТИТЬ") == SkipWord;
    assert Lower("skipx") != "skip";
  }
}
