/** Properties that relate several registry operations: inverses, idempotence,
    and how each mutation moves the statistics. */
module RegistryProps {
  import opened Wrappers
  import opened Registry

  lemma {:induction false} WithoutAbsent(s: seq<string>, x: string)
    requires x !in s
    ensures Without(s, x) == s
    decreases |s|
  {
    if |s| > 0 {
      assert x !in s[1..];
      WithoutAbsent(s[1..], x);
    }
  }

  lemma {:induction false} WithoutAppended(s: seq<string>, x: string)
    requires x !in s
    ensures Without(s + [x], x) == s
    decreases |s|
  {
    if |s| == 0 {
      assert s + [x] == [x];
      assert ([x])[1..] == [];
    } else {
      assert (s + [x])[1..] == s[1..] + [x];
      assert x !in s[1..];
      WithoutAppended(s[1..], x);
    }
  }

  /** Deleting the one voice a registry gained at the end of its list gives
      back the registry it was before. */
  lemma DeleteUndoesAppend(r: Registry, after: Registry, name: string)
    requires Valid(r) && name !in r.voices && name in after.voices
    requires after.names == r.names + [name]
    requires after.voices - {name} == r.voices
    requires after.defaultVoice == r.defaultVoice
    ensures Delete(after, name) == Outcome(true, Deleted(name), r)
  {
    assert name != DefaultName;
    assert name !in r.names;
    WithoutAppended(r.names, name);
    var deleted := Delete(after, name);
    assert deleted.after.names == r.names;
    assert deleted.after.voices == r.voices;
    assert deleted.after.defaultVoice == r.defaultVoice;
  }

  /** Deleting a voice just created gives back the registry as it was. */
  lemma DeleteUndoesCreate(r: Registry, name: string, model: string, settings: Option<Settings>,
                           description: string, createdAt: string)
    requires Valid(r) && name !in r.voices
    ensures var created := Create(r, name, model, settings, description, createdAt);
      created.success && Delete(created.after, name) == Outcome(true, Deleted(name), r)
  {
    var created := Create(r, name, model, settings, description, createdAt);
    assert created.after.voices - {name} == r.voices;
    DeleteUndoesAppend(r, created.after, name);
  }

  /** Deleting a voice just cloned under a fresh name gives back the registry as it was. */
  lemma DeleteUndoesClone(r: Registry, name: string, referenceText: string, description: string,
                          createdAt: string)
    requires Valid(r) && name !in r.voices
    ensures var cloned := Clone(r, name, referenceText, description, createdAt, true);
      cloned.success && Delete(cloned.after, name) == Outcome(true, Deleted(name), r)
  {
    var cloned := Clone(r, name, referenceText, description, createdAt, true);
    assert cloned.after.voices - {name} == r.voices;
    DeleteUndoesAppend(r, cloned.after, name);
  }

  /** Setting the same default twice is the same as setting it once. */
  lemma SetDefaultIdempotent(r: Registry, name: string)
    ensures SetDefault(SetDefault(r, name).after, name) == SetDefault(r, name)
  {
  }

  /** Applying the same settings patch twice is the same as applying it once. */
  lemma UpdateSettingsIdempotent(r: Registry, name: string, p: Patch)
    ensures UpdateSettings(UpdateSettings(r, name, p).after, name, p) == UpdateSettings(r, name, p)
  {
  }

  /** Deleting the voice just made the default removes it and points the
      default back at `default`; every other voice stays. */
  lemma DeleteOfDefaultResetsPointer(r: Registry, name: string)
    requires Valid(r) && name in r.voices && name != DefaultName
    ensures var after := Delete(SetDefault(r, name).after, name).after;
      && after.defaultVoice == DefaultName
      && after.voices.Keys == r.voices.Keys - {name}
      && OthersUnchanged(r.voices, after.voices, name)
      && Valid(after)
  {
  }

  /** A registry that gained one voice under a fresh name counts it once,
      as cloned or as standard according to its flag. */
  lemma AddedVoiceCounts(r: Registry, after: Registry, name: string)
    requires Valid(r) && Valid(after) && name !in r.voices && name in after.voices
    requires after.voices.Keys == r.voices.Keys + {name}
    requires OthersUnchanged(r.voices, after.voices, name)
    ensures Statistics(after).total == Statistics(r).total + 1
    ensures after.voices[name].cloned ==>
      Statistics(after).cloned == Statistics(r).cloned + 1 && Statistics(after).standard == Statistics(r).standard
    ensures !after.voices[name].cloned ==>
      Statistics(after).cloned == Statistics(r).cloned && Statistics(after).standard == Statistics(r).standard + 1
  {
    StatisticsCountVoices(r);
    StatisticsCountVoices(after);
    AddedVoiceSets(r, after, name);
  }

  /** The cloned and standard names after one voice was added under a fresh name. */
  lemma AddedVoiceSets(r: Registry, after: Registry, name: string)
    requires name !in r.voices && name in after.voices
    requires after.voices.Keys == r.voices.Keys + {name}
    requires OthersUnchanged(r.voices, after.voices, name)
    ensures after.voices[name].cloned ==>
      ClonedNames(after) == ClonedNames(r) + {name} && StandardNames(after) == StandardNames(r)
    ensures !after.voices[name].cloned ==>
      ClonedNames(after) == ClonedNames(r) && StandardNames(after) == StandardNames(r) + {name}
  {
    var c := after.voices[name].cloned;
    forall n ensures n in ClonedNames(after) <==> n in ClonedNames(r) || (c && n == name) {
      if n != name && n in r.voices {
        assert after.voices[n] == r.voices[n];
      }
    }
    forall n ensures n in StandardNames(after) <==> n in StandardNames(r) || (!c && n == name) {
      if n != name && n in r.voices {
        assert after.voices[n] == r.voices[n];
      }
    }
  }

  /** A created voice is a standard voice: the total grows by one and the
      cloned count stays. */
  lemma CreateCountsStandard(r: Registry, name: string, model: string, settings: Option<Settings>,
                             description: string, createdAt: string)
    requires Valid(r) && name !in r.voices
    ensures var after := Create(r, name, model, settings, description, createdAt).after;
      && Statistics(after).total == Statistics(r).total + 1
      && Statistics(after).cloned == Statistics(r).cloned
      && Statistics(after).standard == Statistics(r).standard + 1
  {
    var after := Create(r, name, model, settings, description, createdAt).after;
    AddedVoiceCounts(r, after, name);
  }

  /** A voice cloned under a fresh name adds one to the total and to the cloned count. */
  lemma CloneCountsCloned(r: Registry, name: string, referenceText: string, description: string,
                          createdAt: string)
    requires Valid(r) && name !in r.voices
    ensures var after := Clone(r, name, referenceText, description, createdAt, true).after;
      && Statistics(after).total == Statistics(r).total + 1
      && Statistics(after).cloned == Statistics(r).cloned + 1
      && Statistics(after).standard == Statistics(r).standard
  {
    var after := Clone(r, name, referenceText, description, createdAt, true).after;
    AddedVoiceCounts(r, after, name);
  }

  /** Deleting a voice takes one off the total and off the count of its own kind. */
  lemma DeleteCounts(r: Registry, name: string)
    requires Valid(r) && name in r.voices && name != DefaultName
    ensures var after := Delete(r, name).after;
      && Statistics(after).total == Statistics(r).total - 1
      && Statistics(after).cloned == Statistics(r).cloned - (if r.voices[name].cloned then 1 else 0)
  {
    var after := Delete(r, name).after;
    StatisticsCountVoices(r);
    StatisticsCountVoices(after);
    if r.voices[name].cloned {
      assert ClonedNames(after) == ClonedNames(r) - {name};
    } else {
      assert ClonedNames(after) == ClonedNames(r);
    }
    assert after.voices.Keys == r.voices.Keys - {name};
  }
}
