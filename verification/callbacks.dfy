/** Reading a voice name and a value out of button callback data, which the
    keyboards build as `adjust_<kind>_<voice>`, `set_emotion_<voice>_<emotion>`
    and `set_lang_<voice>_<language>`, and which the handler splits at `_`.
    Voice names may themselves contain `_`. */
module Callbacks {
  import opened Wrappers
  import opened Text

  /** What a parse extracts: the first field is the kind (for `adjust_`) or the
      voice (for `set_...`), the second the voice or the value. */
  datatype Fields = Fields(first: string, second: string)

  /** The data of one keyboard button: `<action>_<word>_<rest>` for `adjust_`,
      and `set_<word>_<voice>_<value>` for the setting buttons. */
  function AdjustData(kind: string, voice: string): string {
    "adjust" + "_" + kind + "_" + voice
  }

  function SetData(word: string, voice: string, value: string): string {
    "set" + "_" + word + "_" + voice + "_" + value
  }

  /** The `adjust_` branch: the kind is `parts[1]` and the voice is
      `'_'.join(parts[2:])`. Fewer than two parts would raise an IndexError. */
  function ParseAdjust(data: string): Option<Fields> {
    var parts := Split(data);
    if |parts| < 2 then None else Some(Fields(parts[1], Join(parts[2..])))
  }

  /** The `set_emotion_` and `set_lang_` branches as written: the voice is
      `parts[2]` and the value `parts[3]`. Fewer than four parts would raise
      an IndexError. */
  function ParseSetAsWritten(data: string): Option<Fields> {
    var parts := Split(data);
    if |parts| < 4 then None else Some(Fields(parts[2], parts[3]))
  }

  /** The intended reading: the value is the last part and the voice is
      everything between the action word and the value. */
  function ParseSet(data: string): Option<Fields> {
    var parts := Split(data);
    if |parts| < 4 then None else Some(Fields(Join(parts[2..|parts| - 1]), parts[|parts| - 1]))
  }

  /** Splitting after a `_`-free first field peels that field off. */
  lemma SplitFirstField(a: string, b: string)
    requires '_' !in a
    ensures Split(a + "_" + b) == [a] + Split(b)
  {
    SplitConcat(a, b);
    SplitNoSeparator(a);
  }

  /** Splitting before a `_`-free last field peels that field off. */
  lemma SplitLastField(a: string, b: string)
    requires '_' !in b
    ensures Split(a + "_" + b) == Split(a) + [b]
  {
    SplitConcat(a, b);
    SplitNoSeparator(b);
  }

  lemma SplitSetData(word: string, voice: string, value: string)
    requires '_' !in word && '_' !in value
    ensures Split(SetData(word, voice, value)) == ["set", word] + Split(voice) + [value]
  {
    var tail := voice + "_" + value;
    assert SetData(word, voice, value) == "set" + "_" + (word + "_" + tail);
    assert '_' !in "set";
    SplitFirstField("set", word + "_" + tail);
    SplitFirstField(word, tail);
    SplitLastField(voice, value);
  }

  /** The `adjust_` parse gives back the kind and the whole voice name, `_` included. */
  lemma ParseAdjustRoundTrip(kind: string, voice: string)
    requires '_' !in kind
    ensures ParseAdjust(AdjustData(kind, voice)) == Some(Fields(kind, voice))
  {
    assert AdjustData(kind, voice) == "adjust" + "_" + (kind + "_" + voice);
    SplitConcat("adjust", kind + "_" + voice);
    SplitConcat(kind, voice);
    assert '_' !in "adjust";
    SplitNoSeparator("adjust");
    SplitNoSeparator(kind);
    var parts := Split(AdjustData(kind, voice));
    assert parts == ["adjust", kind] + Split(voice);
    assert parts[2..] == Split(voice);
    JoinSplit(voice);
  }

  /** The corrected parse gives back the voice and the value for every voice
      name, `_` included. */
  lemma ParseSetRoundTrip(word: string, voice: string, value: string)
    requires '_' !in word && '_' !in value
    ensures ParseSet(SetData(word, voice, value)) == Some(Fields(voice, value))
  {
    SplitSetData(word, voice, value);
    var parts := Split(SetData(word, voice, value));
    assert parts[2..|parts| - 1] == Split(voice);
    JoinSplit(voice);
  }

  /** As written, the parse is right for names without `_` ... */
  lemma ParseSetAsWrittenPlainName(word: string, voice: string, value: string)
    requires '_' !in word && '_' !in value && '_' !in voice
    ensures ParseSetAsWritten(SetData(word, voice, value)) == Some(Fields(voice, value))
  {
    SplitSetData(word, voice, value);
    SplitNoSeparator(voice);
  }

  /** ... but for `a_b` it reads voice `a` and takes the first piece of `b`
      as the value, so the setting goes to the wrong voice. */
  lemma ParseSetAsWrittenSplitName(word: string, a: string, b: string, value: string)
    requires '_' !in word && '_' !in value && '_' !in a
    ensures ParseSetAsWritten(SetData(word, a + "_" + b, value)) == Some(Fields(a, Split(b)[0]))
    ensures ParseSetAsWritten(SetData(word, a + "_" + b, value)) != Some(Fields(a + "_" + b, value))
  {
    SplitSetData(word, a + "_" + b, value);
    SplitConcat(a, b);
    SplitNoSeparator(a);
    assert |a + "_" + b| > |a|;
  }

  /** The concrete case: the emotion button `happy` of voice `my_voice`. */
  lemma MyVoiceHappy()
    ensures ParseSetAsWritten("set_emotion_my_voice_happy") == Some(Fields("my", "voice"))
    ensures ParseSet("set_emotion_my_voice_happy") == Some(Fields("my_voice", "happy"))
  {
    var data := "set_emotion_my_voice_happy";
    assert data == SetData("emotion", "my_voice", "happy");
    assert "my_voice" == "my" + "_" + "voice";
    assert '_' !in "emotion" && '_' !in "happy" && '_' !in "my" && '_' !in "voice";
    ParseSetAsWrittenSplitName("emotion", "my", "voice", "happy");
    SplitNoSeparator("voice");
    ParseSetRoundTrip("emotion", "my_voice", "happy");
  }
}
