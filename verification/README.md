# Voice registry and dialog of the Qwen3 TTS Telegram bot

This project models the core of `bot.py`, a Telegram bot that synthesises speech with
Qwen3-TTS and lets users keep a library of named voices. The model has two parts.

- **The voice registry** of `Qwen3TTSManager` (module `Registry`). It holds the `voices`
  table of the configuration and the `default_voice` pointer. The operations are listing,
  lookup, `create_voice`, `clone_voice`, `delete_voice`, `update_voice_settings`,
  `set_default_voice` and `get_voice_statistics`. Each returns the manager's
  `(success, message)` pair and the registry as it stands afterwards. Each is total except
  `create_voice`, which requires the `default` entry when the name is fresh.
  `Valid` is the invariant the operations keep: the name list holds each key once,
  the entry `default` exists, and the default pointer names an existing voice.
- **The per-user dialog** (module `Dialog`). It models the flag bag kept in
  `context.user_data`: `adjusting_param`, `editing_description`, `awaiting_voice_name`,
  `awaiting_voice_description`, `new_voice_name`, `awaiting_voice_audio`,
  `awaiting_cloned_voice_name`, `awaiting_cloned_voice_description`, `cloned_voice_name`,
  `voice_audio_path`, `cloning_voice` and `pending_text`.
  - `Step` handles one event: a text message, an audio message or a button press. It
    returns the next session, the next registry and an abstract reply.
  - A text goes where the registered handlers send it. A command goes to its command
    handler or to none. One of the eight main-menu labels goes to that label's handler
    (module `Menu`). Any other text goes to `handle_text_input`, which dispatches it over
    the flags in a fixed order.
  - Audio is dispatched in the order of `handle_audio`.
  - An uncaught Python exception is the reply `Crash`. Examples: a `KeyError` on a missing
    session key, or a `TypeError` on a voice that has vanished. The session and registry
    in a `Crash` result are the values at the moment the exception is raised.

The supporting modules are:

- `Text`: Python's `str.strip` with the `str.isspace` set, `str.lower`, the name pattern
  `^[a-zA-Z0-9_]{3,30}$`, the skip words, and `split('_')` / `'_'.join`.
- `Validate`: the numeric bounds, the name check, the text-length check and the
  sample-duration decision.
- `Callbacks`: how voice names and values are read out of button callback data.
- `Pagination`: the eight-per-page arithmetic of the voice menu.
- `RegistryProps` and `DialogProps`: lemmas that relate several operations or steps.

The world outside the dialog is a parameter `Env`:
- the timestamp;
- the temporary sample path;
- whether the download worked;
- the measured duration (`None` when measuring raised);
- whether the stored sample still exists;
- whether copying it into the library worked.

What `float(text)` makes of a message is part of the text event. It is a finite number,
an infinity, NaN, or `None` for a `ValueError`.

The model follows the code, including where it is surprising:
- `delete_voice` refuses only the literal name `default`. It does not refuse the current
  default voice; deleting that voice points the default back at `default`.
- `clone_voice` refuses an existing name other than `default`, so it may overwrite the
  `default` entry.
- The cloning-this-voice flow checks only the upper duration bound.

The source text has a few damaged lines. The model reads each one as its evident intent:
- `create_voice` has a lone `,` at bot.py:145 where the `cloned` key belongs. The model
  sets `cloned` to false, as for the stock voice.
- Several statements are run together on one line: bot.py:148, 197, 687, 785, 834, 981,
  1030, 1079 and 1128. The model treats them as consecutive statements.
- The `del context.user_data['cloning_voice']` at bot.py:1177 is over-indented. The model
  clears the flag after every clone attempt.

## Model

| member | source | states |
|---|---|---|
| Registry.Initial | bot.py:47-67 | The first-start configuration holds only the stock `default` voice, which is not cloned, and the default pointer names it; it satisfies the registry invariant. |
| Registry.VoiceList | bot.py:129-131 | On a valid registry the list names every stored voice exactly once and nothing else. |
| Registry.VoiceInfo | bot.py:133-135 | A profile is returned exactly for a known name, and it is the stored one. |
| Registry.Create | bot.py:137-149 | Succeeds exactly for a fresh name. Failure leaves the registry unchanged with "already exists". Success adds only that name at the end of the list, leaves every other voice and the default pointer alone, and takes the model and settings from `default` when omitted. The new voice is not cloned, and an empty description falls back to the generated one. The invariant is kept. |
| Registry.Clone | bot.py:151-179 | Succeeds exactly when the name is fresh or `default`, the copy works and `default` exists. An existing other name gives "already exists". Any failure leaves the registry unchanged. Success stores a cloned voice with the stock model and settings, the library sample path and the reference text, and leaves all other voices alone. The invariant is kept. |
| Registry.Delete | bot.py:181-201 | Succeeds exactly for a known name other than `default`, with the "not found" and "cannot delete default" messages otherwise. Success removes only that name from the table and the list. The pointer moves back to `default` exactly when it named the deleted voice. The invariant is kept. |
| Registry.UpdateSettings | bot.py:203-210 | Succeeds exactly for a known name. Each supplied key replaces that setting and each omitted key keeps its value. Nothing else in the voice or the registry changes. |
| Registry.SetDefault | bot.py:212-219 | Succeeds exactly for a known name, moves only the pointer to it, and keeps the invariant. |
| Registry.SetDescription | bot.py:924-926 | The direct description write touches only that voice's description, and only when the voice exists. |
| Registry.StatisticsCountVoices | bot.py:274-284 | On a valid registry the cloned count is the number of cloned voices, the standard count the number of the others, and they add up to the total. |
| RegistryProps.DeleteUndoesCreate | bot.py:137-201 | Creating a fresh voice and then deleting it gives back the original registry, list order and pointer included. |
| RegistryProps.DeleteUndoesClone | bot.py:151-201 | Cloning under a fresh name and then deleting it gives back the original registry. |
| RegistryProps.SetDefaultIdempotent | bot.py:212-219 | Setting the same default twice equals setting it once. |
| RegistryProps.UpdateSettingsIdempotent | bot.py:203-210 | Applying the same settings update twice equals applying it once. |
| RegistryProps.DeleteOfDefaultResetsPointer | bot.py:197-198 | Deleting the voice that was just made the default removes only it and points the default back at `default`. |
| RegistryProps.CreateCountsStandard | bot.py:274-284 | A created voice adds one to the total and to the standard count and leaves the cloned count alone. |
| RegistryProps.CloneCountsCloned | bot.py:274-284 | A voice cloned under a fresh name adds one to the total and to the cloned count and leaves the standard count alone. |
| RegistryProps.DeleteCounts | bot.py:274-284 | A deletion takes one off the total, and one off the cloned count exactly when the deleted voice was cloned. |
| Text.Strip | bot.py:540 | The result is one contiguous slice of the input with only whitespace cut off on either side, and it neither starts nor ends with whitespace. |
| Text.StripIdempotent | bot.py:937 | Stripping an already stripped answer changes nothing. |
| Text.StripKeeps | bot.py:937 | A string without whitespace at either end is its own strip. |
| Text.LowerIdempotent | bot.py:967 | Lower-casing an already lower-cased answer changes nothing. |
| Text.JoinSplit | bot.py:689-692 | Joining the `_`-split parts of a string with `_` gives the string back. |
| Text.SplitConcat | bot.py:690 | Splitting `a_b` at `_` splits `a` and `b` separately. |
| Pagination.TotalPages | bot.py:302 | The page count is the fewest eight-voice pages that hold all voices. |
| Pagination.PageItems | bot.py:304-306 | A page shows at most eight voices, exactly the ones at positions `8*page` onward, and it is non-empty exactly for pages before the page count. |
| Pagination.ForwardIffMoreVoices | bot.py:325-329 | The forward button appears exactly when voices remain after the current page. |
| Pagination.BackLeadsToFullPage | bot.py:325-326 | On a page that exists, the back button shows exactly on pages after the first, and the page it leads to is full. |
| Pagination.VoiceOnPage | bot.py:302-306 | Every voice appears on the page its index divided by eight names, at its index modulo eight. |
| Validate.NaNPassesRangeCheck | bot.py:868-878 | The bounds check as written lets NaN through for speed, pitch and volume. |
| Validate.AcceptNumber | bot.py:866-878 | The corrected check accepts a value exactly when it is finite and inside the closed range of its parameter (0.1 to 2.0 for volume, 0.5 to 2.0 otherwise), and it keeps the value. |
| Validate.AcceptNumberAgreesExceptNaN | bot.py:868-878 | The corrected check and the check as written agree on every input except NaN. |
| Validate.CheckName | bot.py:939-951 | A name is accepted exactly when it matches the pattern and is not yet listed. It is refused for format exactly when it breaks the pattern. |
| Validate.CheckText | bot.py:542-550 | A synthesis text is accepted exactly when it has 2 to the maximum number of characters, and it is refused as too long exactly when it exceeds the maximum. |
| Validate.CheckDuration | bot.py:1021-1040 | A sample passes exactly when measuring failed or its length lies in 1.0 to max seconds. It is refused as too long exactly when it was measured above the maximum. |
| Callbacks.ParseAdjustRoundTrip | bot.py:689-692 | The `adjust_` parse gives back the kind and the whole voice name, including a name with `_`. |
| Callbacks.ParseSetAsWrittenPlainName | bot.py:730-733 | The `set_emotion_` / `set_lang_` parse as written is right for voice names without `_`. |
| Callbacks.ParseSetAsWrittenSplitName | bot.py:747-750 | For a voice `a_b` the parse as written reads the voice `a` and a piece of `b` as the value, never the voice and value the button encodes. |
| Callbacks.MyVoiceHappy | bot.py:730-733 | The emotion button `happy` of voice `my_voice` is read as voice `my` with emotion `voice`. The corrected parse reads `my_voice` and `happy`. |
| Callbacks.ParseSetRoundTrip | bot.py:730-733 | The corrected parse gives back the voice and the value for every voice name, including names with `_`. |
| Dialog.NumberPatch | bot.py:880 | A numeric edit supplies exactly its own key with the entered value. |
| DialogProps.SkipWordsAnyCase | bot.py:967-968 | The skip words are recognised in any letter case, Cyrillic included (`SKIP`, `Skip`, `ПРОПУСТИТЬ`), and a longer answer such as `skipx` is kept as it is. |
| Text.SkipTokenIgnoresCase | bot.py:967 | The skip check gives the same answer for a text and for its lower-cased form. |
| Dialog.AdjustText | bot.py:859-914 | A non-number, a number the bounds check refuses, or an unknown emotion is refused with nothing changed. Otherwise exactly that one setting of that voice is updated and the flag is cleared. For `language` only the flag is cleared. The bounds check is the corrected one (see "## Left out"). |
| Dialog.EditDescriptionText | bot.py:916-934 | An answer longer than 200 characters after stripping is refused. For an existing voice the stripped answer becomes its description and the flag is cleared. A vanished voice fails the handler with nothing changed. |
| Dialog.NewNameText | bot.py:936-961 | A bad or taken name keeps the session in the name step. A valid fresh name moves it to the description step carrying that name. The registry is never touched. |
| Dialog.NewDescriptionText | bot.py:963-982 | A missing pending name fails the handler. Otherwise `create_voice` is called once with the chosen description and both flow keys are cleared. A skip answer for a fresh name yields the generated description. |
| Dialog.SynthesisText | bot.py:539-557 | A stripped text of 2 to the maximum number of characters becomes the pending text, and any other text is refused with nothing changed. |
| Dialog.TextStep | bot.py:856-991 | A text is handled by the first set flag in the order adjusting, editing description, awaiting name, awaiting description. Otherwise the registry is untouched. |
| Dialog.AwaitAudio | bot.py:996-1060 | A missing file, a failed download or a measured duration outside 1.0 to max seconds is refused with nothing changed. Otherwise the sample path is kept and the flow moves to the cloned-name step. |
| Dialog.ClonedNameAudio | bot.py:1062-1086 | A message without text, which is every message the audio handler receives, fails the handler with nothing changed. Given a text, the name rule of the new-voice flow applies. The registry is never touched. |
| Dialog.ClonedDescriptionAudio | bot.py:1088-1126 | A message without text, which is every message the audio handler receives, fails the handler with nothing changed. Given a text, a missing stored sample is refused with nothing changed; otherwise `clone_voice` is called once with the chosen description, and the three clone keys are cleared whatever the outcome. |
| Dialog.CloningVoiceAudio | bot.py:1128-1186 | A missing file, a failed download or a sample measured too long is refused with nothing changed. Otherwise `clone_voice` is called under the button's voice name and the flag is cleared. |
| Dialog.AudioStep | bot.py:993-1188 | An audio message is handled by the first set flag in the order awaiting audio, cloned name, cloned description, cloning voice. With none of them set it is refused with nothing changed. |
| Dialog.ButtonStep | bot.py:659-835 | The select, set-emotion, set-language and delete buttons leave the session alone and apply exactly the one registry operation. The adjust, edit-description, clone-this and create buttons set exactly their one flag and leave the registry alone. |
| Dialog.MenuStep | bot.py:559-584 | The "create" and "clone" labels set exactly the first flag of their flow and leave the registry alone. Every other label changes nothing. |
| Dialog.TextEvent | bot.py:1278-1316 | A command never reaches the dialog and changes nothing. A main-menu label goes to its own handler. Only any other text reaches `handle_text_input`. Every text keeps the registry invariant, and a refusal changes nothing. |
| Dialog.Step | bot.py:1278-1317 | Every step keeps the registry invariant. A refusal changes neither session nor registry. |
| Menu.EntryOf | bot.py:1281-1312 | A text reaches a label handler exactly when it is that label, optionally followed by one newline, and then reaches the handler of that label. |
| Menu.EntryOfLabel | bot.py:1281-1312 | Each of the eight labels reaches its own handler and no other. |
| Menu.ValidNameIsDialogText | bot.py:1278-1316 | A text matching the name pattern is neither a command nor a label, so it always reaches the dialog. |
| DialogProps.MenuLabelKeepsDialog | bot.py:1286-1312 | A main-menu label other than "create" and "clone" changes neither session nor registry, whatever step the dialog is in. |
| DialogProps.MenuLabelStartsFlow | bot.py:1290-1296 | The "create" and "clone" labels set the first flag of their flow from any step, and touch no other flag and not the registry. |
| DialogProps.CommandKeepsDialog | bot.py:1278-1316 | A command changes neither session nor registry, whatever step the dialog is in. |
| DialogProps.SlashSkipAndLabelIgnored | bot.py:1278-1316 | Answering `/skip` to the description question creates nothing. Tapping "my voices" while editing a description keeps the old description and the editing flag. |
| DialogProps.StepPreservesWf | bot.py:953-955 | Every step keeps the session well formed: a set description flag always comes with the name and sample path it relies on. |
| DialogProps.RunPreservesWf | bot.py:1079-1080 | The session stays well formed along every run of events. |
| DialogProps.RunPreservesValid | bot.py:186-198 | Along every run of events `default` exists and the default pointer names an existing voice. |
| DialogProps.WfDescriptionStepsDoNotCrash | bot.py:963-965 | On a well-formed session the new-voice description step never fails. Given a typed answer and its sample present, the cloned-voice description step never fails for want of its name or sample path. |
| DialogProps.ClonedStepsCrashOnAudio | bot.py:1062-1090 | Once a sample is accepted, every audio message fails the handler in the cloned-name and cloned-description steps, because it has no text, and changes nothing. |
| DialogProps.ClonedFlowWithText | bot.py:1062-1126 | With typed text in hand, the cloned-voice steps work as written to: a valid fresh name and then an answer clone that voice from the accepted sample. The voice gets the generated description for a skip or empty answer, and no other voice changes. The voice is appended to the list, and every clone key is cleared. |
| DialogProps.StepKeepsPendingTextUnset | bot.py:984-986 | A session without a pending text never gains one in a step. The only write of `pending_text` is reached only when one is already set. |
| DialogProps.RunKeepsPendingTextUnset | bot.py:552 | A session without a pending text never gains one along any run of events. |
| DialogProps.StripKeepsValidName | bot.py:937-939 | A name matching the pattern is its own strip. |
| DialogProps.NameStepAccepts | bot.py:936-961 | In the name step a valid fresh name moves to the description step with that name, leaving the registry and everything else alone. Such a name is never a label or a command. |
| DialogProps.DescriptionStepCreates | bot.py:963-982 | The description step after an accepted name creates exactly that voice, for every answer that reaches the dialog (not a label or a command). It gets the generated description for a skip or empty answer and the answer otherwise, it is not cloned, and it is appended to the list. All other voices and the pointer stay, and the flow keys are cleared. |
| DialogProps.NewVoiceFlow | bot.py:936-982 | A valid fresh name followed by any answer that reaches the dialog creates that voice with the description the answer selects, changes no other voice, and ends the flow. |
| DialogProps.AbcThenDash | bot.py:936-982 | The name `abc` followed by `-` on a fresh bot creates voice `abc` with description "Пользовательский голос: abc". |
| DialogProps.SpeedScenario | bot.py:866-892 | While adjusting the speed, a text reading 3.5 is refused with nothing changed. Then 1.2 sets the speed, keeps the other settings and voices, and clears the flag. |
| DialogProps.LongSampleRefused | bot.py:1025-1030 | A 45-second sample with the 30-second limit is refused with nothing changed. |
| DialogProps.CloneThisNeverClones | bot.py:1128-1186 | For an existing voice other than `default` the clone-this audio never changes the registry. Any clone outcome is "already exists". |
| DialogProps.SampleDurationGate | bot.py:1018-1044 | A measured duration outside 1.0 to max seconds keeps the session. A failed measurement lets a downloaded sample through. |

## Left out

- Telegram I/O is not modelled: keyboards, message texts, `query.answer` and Markdown
  rendering. A reply is an abstract tag.
- The TTS engine is not modelled: model loading, `synthesize`, `synthesize_and_send` and
  audio encoding.
- Persistence is not modelled: `load_config`, `save_config`, directory creation, the
  library file copy, `rmtree` and temp-file removal. The copy outcome and the existence of
  the stored sample arrive through `Env`.
- Clocks and sample measurement are parameters: `datetime.now()` and
  `librosa.get_duration`.
- Concurrency between users sharing the one manager is not modelled. The model handles one
  event at a time.
- `main()` is left out, except for the order in which it registers the handlers. The
  `/start` and `/help` commands and the menus that only display text are modelled only
  as changing nothing.
- Menu.IsCommand: Telegram decides which messages carry a command. The model takes a `/`
  followed by a letter, a digit or an underscore at the start of the text as a command.
- Dialog.AdjustText: uses the corrected bounds check `Validate.AcceptNumber`. The source
  stores NaN for the text `nan` and clears the flag; the model refuses it and keeps the
  flag. The source's behaviour is stated by `Validate.NaNPassesRangeCheck` (see
  "## Findings").
- Step: takes an already parsed callback. Only the `_`-splitting of `adjust_`,
  `set_emotion_` and `set_lang_` is modelled (`Callbacks`). The `str.replace` prefix
  stripping of the other buttons is not, because it removes every occurrence of the prefix.
- Dialog.AwaitAudio: a failed measurement is modelled as letting the sample through. The
  success reply then reads the unbound `duration` (bot.py:1047), so the outer handler
  replies with an error and deletes the temp file after the flags were already set. The
  model keeps the flag change; the lost file shows up later as a missing sample.
- Dialog.AdjustText: `float` parsing is a parameter of the event, not modelled character by
  character.
- Text.Lower: covers ASCII and the basic Cyrillic block only, not all of Unicode
  `str.lower`.
- Pagination.PageItems: takes a non-negative page. Python's negative slice indices are not
  modelled, since the buttons only produce pages from 0 up.
- Registry.Create: an omitted settings dictionary is `None`. An explicit empty dictionary,
  which Python's `or` would also replace, is not modelled, because the dialog always omits
  it.
- Registry.Create: requires the `default` entry when the name is fresh. The source reads that
  entry without a guard and raises a `KeyError`; the dialog models that exception as `Crash`
  (`Dialog.NewDescriptionText`).
- Dialog.ButtonStep: the buttons that only redraw a menu (`voices_page_`, `voice_menu_`,
  `settings_`, `save_settings_`, `delete_confirm_`, `back_to_main`, `back_to_voices`, `noop`)
  change no state and are all represented by `ViewOnly`.
- Dialog.CloningVoiceAudio: whether a file is attached is one boolean. The `AttributeError`
  that a document without a MIME type raises at bot.py:1135 is not modelled.
- Registry.Statistics: counts `cloned` as a boolean, while the source counts truthy values
  of `v.get('cloned')`.
- The number of pages shown when there are no voices (`1/0`) is display text and is not
  modelled.

## Findings

| source | as written | input that shows it | evidently intended | confidence | as-written member | corrected member |
|---|---|---|---|---|---|---|
| bot.py:868-878 | The bounds guard refuses only when `value < low or value > high`. Both comparisons are false for NaN. | The text `nan` while adjusting speed, pitch or volume stores NaN as the setting. | Only a finite number inside the closed range is accepted. | not executed | Validate.NaNPassesRangeCheck | Validate.AcceptNumberAgreesExceptNaN |
| bot.py:1062-1063, 1088-1090, 1317 | The cloned-voice name and description steps call `update.message.text.strip()` in the audio handler. Every message that handler receives is a voice, audio or audio-document message, whose `text` is `None`. | After a sample is accepted, any further audio message raises `AttributeError`, and a typed name goes to the text handler, which ignores the clone flags. Cloning from a sample can never finish. | The name and the description are read from the user's next text messages. | not executed | DialogProps.ClonedStepsCrashOnAudio | DialogProps.ClonedFlowWithText |
| bot.py:730-733, 747-750 | The voice is `parts[2]` and the value `parts[3]` of `data.split('_')`. | The data `set_emotion_my_voice_happy` updates voice `my` with emotion `voice`. | The voice is everything between the action word and the last part, and the value is the last part. | not executed | Callbacks.MyVoiceHappy | Callbacks.ParseSetRoundTrip |

The dialog uses the corrected bounds check (`Validate.AcceptNumber`). `Callbacks.ParseSet`
is the corrected callback parse that `Dialog.Callback` values stand for. The audio event
carries an optional text: `None` is what the source receives, and a text stands for the
typed answer the cloned-voice steps were written to read.
