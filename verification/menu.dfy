/** The handlers registered before the free-text handler. A message whose
    whole text is one of the eight labels of the main reply keyboard goes to
    that label's handler, and a command goes to its command handler or to
    none; neither ever reaches the text dialog. */
module Menu {
  import opened Wrappers
  import opened Text

  /** The eight buttons of the main reply keyboard. */
  datatype Entry =
    | Synthesize | MyVoices | CreateVoice | CloneVoice
    | Settings | Library | Help | Statistics

  function Label(m: Entry): string {
    match m
    case Synthesize => "\U{1F3B5} Синтезировать речь"
    case MyVoices => "\U{1F3AD} Мои голоса"
    case CreateVoice => "\U{2795} Создать голос"
    case CloneVoice => "\U{1F3A4} Клонировать голос"
    case Settings => "\U{2699}\U{FE0F} Настройки"
    case Library => "\U{1F4DA} Библиотека"
    case Help => "\U{2753} Помощь"
    case Statistics => "\U{1F4CA} Статистика"
  }

  /** Whether the pattern `^label$` matches the text. Python's `$` also
      matches just before one final newline. */
  predicate Matches(raw: string, m: Entry) {
    raw == Label(m) || raw == Label(m) + "\n"
  }

  /** The one entry whose label starts with `c`: the labels start with
      eight different symbols. */
  function EntryStartingWith(c: char): (m: Option<Entry>)
    ensures m.Some? ==> Label(m.value)[0] == c
  {
    if c == '\U{1F3B5}' then Some(Synthesize)
    else if c == '\U{1F3AD}' then Some(MyVoices)
    else if c == '\U{2795}' then Some(CreateVoice)
    else if c == '\U{1F3A4}' then Some(CloneVoice)
    else if c == '\U{2699}' then Some(Settings)
    else if c == '\U{1F4DA}' then Some(Library)
    else if c == '\U{2753}' then Some(Help)
    else if c == '\U{1F4CA}' then Some(Statistics)
    else None
  }

  lemma LeadingSymbolDecides(e: Entry)
    ensures EntryStartingWith(Label(e)[0]) == Some(e)
  {
  }

  /** The label handler a text goes to. No two patterns match the same text,
      so the order they are registered in does not matter. */
  function EntryOf(raw: string): (m: Option<Entry>)
    ensures m.Some? ==> Matches(raw, m.value)
    ensures m.None? ==> forall e: Entry :: !Matches(raw, e)
  {
    if |raw| == 0 then None
    else
      match EntryStartingWith(raw[0])
      case None =>
        assert forall e: Entry :: Matches(raw, e) ==> raw[0] == Label(e)[0] by {
          forall e: Entry | Matches(raw, e) ensures raw[0] == Label(e)[0] {
            assert |Label(e)| > 0;
          }
        }
        assert forall e: Entry :: !Matches(raw, e) by {
          forall e: Entry ensures !Matches(raw, e) {
            LeadingSymbolDecides(e);
          }
        }
        None
      case Some(m) =>
        if Matches(raw, m) then Some(m)
        else
          assert forall e: Entry :: !Matches(raw, e) by {
            forall e: Entry ensures !Matches(raw, e) {
              LeadingSymbolDecides(e);
            }
          }
          None
  }

  /** Every label reaches its own handler and no other. */
  lemma EntryOfLabel(m: Entry)
    ensures EntryOf(Label(m)) == Some(m)
    ensures EntryOf(Label(m) + "\n") == Some(m)
  {
  }

  /** A text Telegram marks as a bot command: a `/` followed by a command
      name, which starts with a letter, a digit or an underscore. */
  predicate IsCommand(raw: string) {
    |raw| >= 2 && raw[0] == '/' && IsNameChar(raw[1])
  }

  /** A text that reaches `handle_text_input`: `filters.TEXT & ~filters.COMMAND`
      after none of the label patterns matched. */
  predicate DialogText(raw: string) {
    !IsCommand(raw) && EntryOf(raw).None?
  }

  /** A valid voice name starts with a name character and holds only name
      characters, so it is neither a command nor a label. */
  lemma ValidNameIsDialogText(name: string)
    requires ValidName(name)
    ensures DialogText(name)
  {
    assert IsNameChar(name[0]);
    forall e: Entry ensures !Matches(name, e) {
      assert !IsNameChar(Label(e)[0]);
    }
  }
}
