/**
  The YAML reader (src/config/yaml.c): a hand-written descent over libyaml's token stream that applies each
  entry to the store as soon as it is read.
 */
module ConfigYaml {
  import opened Prelude
  import opened ConfigStore

  /** libyaml's tokens as far as the reader tells them apart; NoToken is what a scan past the end or an error yields. */
  datatype Token =
    | NoToken | StreamStart | StreamEnd | DocumentStart
    | BlockMappingStart | FlowMappingStart | FlowMappingEnd
    | BlockSequenceStart | FlowSequenceStart | FlowSequenceEnd
    | BlockEntry | FlowEntry | BlockEnd
    | Key | ValueMark | Scalar(text: string) | OtherToken

  function Head(ts: seq<Token>): Token {
    if ts == [] then NoToken else ts[0]
  }

  function Tail(ts: seq<Token>): (r: seq<Token>)
    ensures |r| <= |ts|
    ensures ts != [] ==> |r| < |ts|
  {
    if ts == [] then [] else ts[1..]
  }

  /** An option and the texts that a document gives it. */
  datatype Mention = Mention(r: Ref, texts: seq<string>)

  /**
    What a reading function leaves behind: success or failure, the store, the tokens not yet read, and, after
    a success, the mentions read so far.  `last` marks the end of a section's entries.
   */
  datatype Reading = Reading(ok: bool, last: bool, store: Store, rest: seq<Token>, mentions: seq<Mention>)

  datatype Outcome = Returns(r: Reading) | Hangs

  function Failed(store: Store, rest: seq<Token>): Reading {
    Reading(false, false, store, rest, [])
  }

  /** The stream, document and global mapping must start in this order. */
  function ReadInit(ts: seq<Token>): (r: (bool, seq<Token>))
    ensures |r.1| <= |ts|
  {
    if Head(ts) != StreamStart then (false, Tail(ts))
    else if Head(Tail(ts)) != DocumentStart then (false, Tail(Tail(ts)))
    else (Head(Tail(Tail(ts))) == BlockMappingStart, Tail(Tail(Tail(ts))))
  }

  predicate SetsScalar(store: Store, r: Ref, text: string)
    requires InStore(store, r)
  {
    At(store, r).Locked() || At(store, r).Readable(text)
  }

  function SetScalar(store: Store, r: Ref, text: string): Store
    requires InStore(store, r)
  {
    if At(store, r).Locked() then store else With(store, r, At(store, r).AddText(text))
  }

  /** The list loop: entries with or without a mark in front, up to the end of a block or flow sequence. */
  function ReadItems(store: Store, r: Ref, ts: seq<Token>): (x: (bool, Store, seq<Token>, seq<string>))
    requires InStore(store, r)
    ensures |x.2| <= |ts|
    decreases |ts|
  {
    var token, ts1 := Head(ts), Tail(ts);
    if token.BlockEntry? || token.FlowEntry? || token.Scalar? then
      var scalar := if token.Scalar? then token else Head(ts1);
      var ts2 := if token.Scalar? then ts1 else Tail(ts1);
      if !scalar.Scalar? then (false, store, ts2, [])
      else if !SetsScalar(store, r, scalar.text) then (false, SetScalar(store, r, scalar.text), ts2, [])
      else
        var (ok, store', rest, texts) := ReadItems(SetScalar(store, r, scalar.text), r, ts2);
        (ok, store', rest, [scalar.text] + texts)
    else
      (token.BlockEnd? || token.FlowSequenceEnd?, store, ts1, [])
  }

  /** The value of an entry, whose first token has been read; an unlocked option has been cleared for it. */
  function ReadValue(store: Store, r: Ref, token: Token, ts: seq<Token>): (x: Reading)
    requires InStore(store, r)
    ensures |x.rest| <= |ts|
  {
    if token.Scalar? then
      if SetsScalar(store, r, token.text)
      then Reading(true, false, SetScalar(store, r, token.text), ts, [Mention(r, [token.text])])
      else Failed(SetScalar(store, r, token.text), ts)
    else if At(store, r).multivalued == 0 then Failed(store, ts)
    else
      var (ok, store', rest, texts) := ReadItems(store, r, ts);
      if ok then Reading(true, false, store', rest, [Mention(r, texts)]) else Failed(store', rest)
  }

  function ClearUnlocked(store: Store, r: Ref): Store
    requires InStore(store, r)
  {
    if At(store, r).Locked() then store else With(store, r, At(store, r).Cleared())
  }

  /** One entry of section s, or the end of the section. */
  function ReadEntry(store: Store, s: nat, ts: seq<Token>): (x: Reading)
    requires s < |store|
    ensures |x.rest| <= |ts|
    ensures x.ok ==> |x.rest| < |ts|
  {
    var token, ts1 := Head(ts), Tail(ts);
    if token.BlockEnd? || token.FlowMappingEnd? then Reading(false, true, store, ts1, [])
    else if !token.Key? && !token.FlowEntry? then Failed(store, ts1)
    else if token.FlowEntry? && Head(ts1) != Key then Failed(store, Tail(ts1))
    else
      var ts2 := if token.FlowEntry? then Tail(ts1) else ts1;
      var name, ts3 := Head(ts2), Tail(ts2);
      if !name.Scalar? then Failed(store, ts3)
      else match FindIn(store[s].options, name.text)
        case None => Failed(store, ts3)
        case Some(o) =>
          if Head(ts3) != ValueMark then Failed(store, Tail(ts3)) else
            var value, ts5 := Head(Tail(ts3)), Tail(Tail(ts3));
            if !value.Scalar? && !value.BlockSequenceStart? && !value.FlowSequenceStart? then Failed(store, ts5)
            else ReadValue(ClearUnlocked(store, Ref(s, o)), Ref(s, o), value, ts5)
  }

  /** The entries of section s up to its end; the section fails with its first bad entry. */
  function ReadEntries(store: Store, s: nat, ts: seq<Token>): (x: Reading)
    requires s < |store|
    ensures |x.rest| <= |ts|
    ensures |x.store| == |store|
    decreases |ts|
  {
    var e := ReadEntry(store, s, ts);
    EntryKeeps(store, s, ts);
    if e.ok then
      var more := ReadEntries(e.store, s, e.rest);
      if more.ok then more.(mentions := e.mentions + more.mentions) else more
    else if e.last then Reading(true, false, e.store, e.rest, [])
    else e
  }

  /** What follows the first block end, if there is one. */
  function SkipBlock(ts: seq<Token>): (r: Option<seq<Token>>)
    ensures r.Some? ==> |r.value| < |ts|
  {
    if ts == [] then None
    else if ts[0].BlockEnd? then Some(ts[1..])
    else SkipBlock(ts[1..])
  }

  /** A section whose name has been read; an unknown one is skipped, for ever if no block end follows. */
  function ReadSection(store: Store, name: string, ts: seq<Token>): (x: Outcome)
    ensures x.Returns? ==> |x.r.rest| <= |ts| && |x.r.store| == |store|
  {
    match FindSection(store, name)
    case None =>
      (match SkipBlock(ts)
       case None => Hangs
       case Some(rest) => Returns(Reading(true, false, store, rest, [])))
    case Some(s) =>
      if Head(ts) != ValueMark then Returns(Failed(store, Tail(ts)))
      else
        var start, ts2 := Head(Tail(ts)), Tail(Tail(ts));
        if !start.BlockMappingStart? && !start.FlowMappingStart? then Returns(Failed(store, ts2))
        else Returns(ReadEntries(store, s, ts2))
  }

  /** The sections of the global mapping. */
  function ReadSections(store: Store, ts: seq<Token>): (x: Outcome)
    ensures x.Returns? ==> |x.r.store| == |store|
    decreases |ts|
  {
    var token, ts1 := Head(ts), Tail(ts);
    if token.BlockEnd? then Returns(Reading(true, false, store, ts1, []))
    else if !token.Key? then Returns(Failed(store, ts1))
    else
      var name, ts2 := Head(ts1), Tail(ts1);
      if !name.Scalar? then Returns(Failed(store, ts2))
      else match ReadSection(store, name.text, ts2)
        case Hangs => Hangs
        case Returns(section) =>
          if !section.ok then Returns(section) else
            match ReadSections(section.store, section.rest)
            case Hangs => Hangs
            case Returns(more) => Returns(if more.ok then more.(mentions := section.mentions + more.mentions) else more)
  }

  /** A whole document. */
  function ReadDocument(store: Store, ts: seq<Token>): (x: Outcome)
    ensures x.Returns? ==> |x.r.store| == |store|
  {
    var (ok, rest) := ReadInit(ts);
    if ok then ReadSections(store, rest) else Returns(Failed(store, rest))
  }

  // ----------------------------------------------------------------------------------------------
  // What no document changes
  // ----------------------------------------------------------------------------------------------

  /** Everything of an option but its values. */
  function Frame(o: ConfigOption): ConfigOption {
    o.(values := [], numValues := 0)
  }

  /** Same sections, same options but for values, and same values where locked. */
  ghost predicate Kept(store: Store, store': Store) {
    && |store'| == |store|
    && (forall i :: 0 <= i < |store| ==> store'[i].name == store[i].name && |store'[i].options| == |store[i].options|)
    && (forall r :: InStore(store, r) ==> Frame(At(store', r)) == Frame(At(store, r)))
    && (forall r :: InStore(store, r) && At(store, r).Locked() ==> At(store', r) == At(store, r))
  }

  lemma WithKeeps(store: Store, r: Ref, o: ConfigOption)
    requires InStore(store, r) && Frame(o) == Frame(At(store, r)) && !At(store, r).Locked()
    ensures Kept(store, With(store, r, o))
  {
    var store' := With(store, r, o);
    forall i | 0 <= i < |store| ensures |store'[i].options| == |store[i].options| {
      if i != r.s {
        assert store'[i] == store[i];
      }
    }
  }

  lemma KeptItself(store: Store)
    ensures Kept(store, store)
  {
  }

  lemma KeptOnwards(a: Store, b: Store, c: Store)
    requires Kept(a, b) && Kept(b, c)
    ensures Kept(a, c)
  {
    assert forall r :: InStore(a, r) ==> InStore(b, r) && Frame(At(b, r)) == Frame(At(a, r));
  }

  /** Adding a value to an unlocked option, and clearing one. */
  lemma ScalarKeeps(store: Store, r: Ref, text: string)
    requires InStore(store, r)
    ensures Kept(store, SetScalar(store, r, text)) && InStore(SetScalar(store, r, text), r)
    ensures Kept(store, ClearUnlocked(store, r)) && InStore(ClearUnlocked(store, r), r)
  {
    hide Kept;
    KeptItself(store);
    if !At(store, r).Locked() {
      WithKeeps(store, r, At(store, r).AddText(text));
      WithKeeps(store, r, At(store, r).Cleared());
    }
  }

  lemma {:induction false} ItemsKeep(store: Store, r: Ref, ts: seq<Token>)
    requires InStore(store, r)
    ensures Kept(store, ReadItems(store, r, ts).1)
    decreases |ts|
  {
    hide Kept, SetScalar, SetsScalar;
    var token, ts1 := Head(ts), Tail(ts);
    KeptItself(store);
    if token.BlockEntry? || token.FlowEntry? || token.Scalar? {
      var scalar := if token.Scalar? then token else Head(ts1);
      var ts2 := if token.Scalar? then ts1 else Tail(ts1);
      if scalar.Scalar? {
        ScalarKeeps(store, r, scalar.text);
        var store' := SetScalar(store, r, scalar.text);
        ItemsKeep(store', r, ts2);
        KeptOnwards(store, store', ReadItems(store', r, ts2).1);
      }
    }
  }

  lemma ValueKeeps(store: Store, r: Ref, token: Token, ts: seq<Token>)
    requires InStore(store, r)
    ensures Kept(store, ReadValue(store, r, token, ts).store)
  {
    hide Kept, SetScalar, SetsScalar, ReadItems;
    KeptItself(store);
    ItemsKeep(store, r, ts);
    if token.Scalar? {
      ScalarKeeps(store, r, token.text);
    }
  }

  lemma EntryKeeps(store: Store, s: nat, ts: seq<Token>)
    requires s < |store|
    ensures Kept(store, ReadEntry(store, s, ts).store) && |ReadEntry(store, s, ts).store| == |store|
  {
    hide ReadValue, ClearUnlocked;
    KeptItself(store);
    var token, ts1 := Head(ts), Tail(ts);
    var ts2 := if token.FlowEntry? then Tail(ts1) else ts1;
    var name, ts3 := Head(ts2), Tail(ts2);
    if name.Scalar? && FindIn(store[s].options, name.text).Some? {
      var r := Ref(s, FindIn(store[s].options, name.text).value);
      var value, ts5 := Head(Tail(ts3)), Tail(Tail(ts3));
      ScalarKeeps(store, r, "");
      var cleared := ClearUnlocked(store, r);
      ValueKeeps(cleared, r, value, ts5);
      KeptOnwards(store, cleared, ReadValue(cleared, r, value, ts5).store);
    }
  }

  lemma {:induction false} EntriesKeep(store: Store, s: nat, ts: seq<Token>)
    requires s < |store|
    ensures Kept(store, ReadEntries(store, s, ts).store)
    decreases |ts|
  {
    hide ReadEntry, Kept;
    EntryKeeps(store, s, ts);
    var e := ReadEntry(store, s, ts);
    if e.ok {
      EntriesKeep(e.store, s, e.rest);
      KeptOnwards(store, e.store, ReadEntries(e.store, s, e.rest).store);
    }
  }

  lemma SectionKeeps(store: Store, name: string, ts: seq<Token>)
    requires ReadSection(store, name, ts).Returns?
    ensures Kept(store, ReadSection(store, name, ts).r.store)
  {
    hide ReadEntries, Kept;
    KeptItself(store);
    var s := FindSection(store, name);
    if s.Some? {
      EntriesKeep(store, s.value, Tail(Tail(ts)));
    }
  }

  lemma {:induction false} SectionsKeep(store: Store, ts: seq<Token>)
    requires ReadSections(store, ts).Returns?
    ensures Kept(store, ReadSections(store, ts).r.store)
    decreases |ts|
  {
    hide ReadSection, Kept;
    KeptItself(store);
    var name, ts2 := Head(Tail(ts)), Tail(Tail(ts));
    if Head(ts).Key? && name.Scalar? {
      SectionKeeps(store, name.text, ts2);
      var section := ReadSection(store, name.text, ts2).r;
      if section.ok {
        SectionsKeep(section.store, section.rest);
        KeptOnwards(store, section.store, ReadSections(section.store, section.rest).r.store);
      }
    }
  }

  /**
    No token stream on which the reader returns, accepted or rejected, changes the values or the lock of a
    locked option, or anything but values of any other.
   */
  lemma DocumentKeeps(store: Store, ts: seq<Token>)
    requires ReadDocument(store, ts).Returns?
    ensures Kept(store, ReadDocument(store, ts).r.store)
  {
    hide ReadSections, Kept;
    KeptItself(store);
    var (ok, rest) := ReadInit(ts);
    if ok {
      SectionsKeep(store, rest);
    }
  }

  // ----------------------------------------------------------------------------------------------
  // What an accepted document means
  // ----------------------------------------------------------------------------------------------

  /** The value that a readable text stands for. */
  function ValueOf(kind: ParamType, text: string): Value {
    match kind
    case ParamString => StrValue(text)
    case ParamBool => IntValue(BOOL_TEXT_VALUE)
    case ParamInt => IntValue(if ReadLong(text).Some? then ReadLong(text).value else 0)
  }

  function ValuesOf(kind: ParamType, texts: seq<string>): (vs: seq<Value>)
    ensures |vs| == |texts|
  {
    if texts == [] then [] else [ValueOf(kind, texts[0])] + ValuesOf(kind, texts[1..])
  }

  /** The option that holds exactly the given texts' values. */
  function Holding(o: ConfigOption, texts: seq<string>): ConfigOption {
    o.(values := ValuesOf(o.kind, texts), numValues := |texts|)
  }

  /** A mention replaces the values of an unlocked option and leaves a locked one alone. */
  function Apply(store: Store, m: Mention): Store {
    if !InStore(store, m.r) || At(store, m.r).Locked() then store
    else With(store, m.r, Holding(At(store, m.r), m.texts))
  }

  function ApplyAll(store: Store, ms: seq<Mention>): Store
    decreases |ms|
  {
    if ms == [] then store else ApplyAll(Apply(store, ms[0]), ms[1..])
  }

  /** Every option is sound. */
  ghost predicate AllSound(store: Store) {
    forall r :: InStore(store, r) ==> At(store, r).Sound()
  }

  lemma {:induction false} ApplyAllSplits(store: Store, a: seq<Mention>, b: seq<Mention>)
    ensures ApplyAll(store, a + b) == ApplyAll(ApplyAll(store, a), b)
    decreases |a|
  {
    if a == [] {
      assert a + b == b;
    } else {
      assert (a + b)[1..] == a[1..] + b;
      ApplyAllSplits(Apply(store, a[0]), a[1..], b);
    }
  }

  lemma WithAgain(store: Store, r: Ref, o: ConfigOption, o': ConfigOption)
    requires InStore(store, r)
    ensures With(With(store, r, o), r, o') == With(store, r, o')
  {
    var store' := With(store, r, o);
    assert store'[r.s].options[r.o := o'] == store[r.s].options[r.o := o'];
  }

  /** An option that takes the text gets exactly its value appended. */
  lemma AddTextAppends(o: ConfigOption, text: string)
    requires o.Sound() && o.Readable(text) && o.HasRoom()
    ensures o.AddText(text) == o.Append(ValueOf(o.kind, text)) && o.AddText(text).Sound()
  {
  }

  /** The option with the texts' values behind those it has. */
  function Extended(o: ConfigOption, texts: seq<string>): ConfigOption {
    o.(values := o.values + ValuesOf(o.kind, texts), numValues := o.numValues + |texts|)
  }

  lemma ExtendedStep(o: ConfigOption, text: string, texts: seq<string>)
    requires o.Sound() && o.Readable(text) && o.multivalued != 0
    ensures o.AddText(text).Sound() && o.AddText(text).multivalued != 0 && !o.AddText(text).Locked() == !o.Locked()
    ensures Extended(o.AddText(text), texts) == Extended(o, [text] + texts)
  {
    hide ValueOf, ConfigOption.AddText, ConfigOption.Sound, ConfigOption.Readable;
    AddTextAppends(o, text);
    assert ([text] + texts)[1..] == texts;
    assert o.values + ([ValueOf(o.kind, text)] + ValuesOf(o.kind, texts)) == (o.values + [ValueOf(o.kind, text)]) + ValuesOf(o.kind, texts);
  }

  lemma ExtendedByNone(o: ConfigOption)
    ensures Extended(o, []) == o
  {
  }

  /** The items of an accepted list end up behind the values that were there. */
  lemma {:induction false} ItemsAppend(store: Store, r: Ref, ts: seq<Token>)
    requires InStore(store, r) && !At(store, r).Locked() && At(store, r).Sound() && At(store, r).multivalued != 0
    requires ReadItems(store, r, ts).0
    ensures ReadItems(store, r, ts).1 == With(store, r, Extended(At(store, r), ReadItems(store, r, ts).3))
    decreases |ts|
  {
    hide ConfigOption.Sound, ConfigOption.AddText, ConfigOption.Readable, Extended;
    var token, ts1 := Head(ts), Tail(ts);
    var o := At(store, r);
    if token.BlockEntry? || token.FlowEntry? || token.Scalar? {
      var scalar := if token.Scalar? then token else Head(ts1);
      var ts2 := if token.Scalar? then ts1 else Tail(ts1);
      var o1 := o.AddText(scalar.text);
      var store1 := SetScalar(store, r, scalar.text);
      var texts := ReadItems(store1, r, ts2).3;
      ExtendedStep(o, scalar.text, texts);
      ItemsAppend(store1, r, ts2);
      WithAgain(store, r, o1, Extended(o1, texts));
    } else {
      ExtendedByNone(o);
      WithItself(store, r);
    }
  }

  /** Nothing is ever stored in a locked option, whatever the items. */
  lemma {:induction false} LockedItems(store: Store, r: Ref, ts: seq<Token>)
    requires InStore(store, r) && At(store, r).Locked()
    ensures ReadItems(store, r, ts).1 == store
    decreases |ts|
  {
    var token, ts1 := Head(ts), Tail(ts);
    if token.BlockEntry? || token.FlowEntry? || token.Scalar? {
      LockedItems(store, r, if token.Scalar? then ts1 else Tail(ts1));
    }
  }

  lemma ValueApplies(store: Store, r: Ref, token: Token, ts: seq<Token>)
    requires InStore(store, r) && At(store, r).Sound()
    requires var x := ReadValue(ClearUnlocked(store, r), r, token, ts); x.ok
    ensures var x := ReadValue(ClearUnlocked(store, r), r, token, ts);
      |x.mentions| == 1 && x.mentions[0].r == r && x.store == Apply(store, x.mentions[0])
  {
    hide ConfigOption.AddText, ValueOf, ConfigOption.Readable, ReadItems;
    var o := At(store, r);
    if o.Locked() {
      LockedItems(store, r, ts);
    } else {
      var cleared := ClearUnlocked(store, r);
      var o0 := o.Cleared();
      assert o0.Sound() && At(cleared, r) == o0;
      if token.Scalar? {
        AddTextAppends(o0, token.text);
        assert ValuesOf(o.kind, [token.text]) == [ValueOf(o.kind, token.text)];
        assert o0.AddText(token.text) == Holding(o, [token.text]);
        WithAgain(store, r, o0, o0.AddText(token.text));
      } else {
        ItemsAppend(cleared, r, ts);
        var texts := ReadItems(cleared, r, ts).3;
        assert Extended(o0, texts) == Holding(o, texts) by {
          assert [] + ValuesOf(o.kind, texts) == ValuesOf(o.kind, texts);
        }
        WithAgain(store, r, o0, Holding(o, texts));
      }
    }
  }

  lemma ApplySound(store: Store, m: Mention)
    requires AllSound(store)
    ensures AllSound(Apply(store, m))
  {
    if InStore(store, m.r) && !At(store, m.r).Locked() {
      ValuesOfKind(At(store, m.r).kind, m.texts);
      var store' := Apply(store, m);
      forall q | InStore(store', q) ensures At(store', q).Sound() {
      }
    }
  }

  lemma {:induction false} ValuesOfKind(kind: ParamType, texts: seq<string>)
    ensures forall i :: 0 <= i < |texts| ==>
      var v := ValuesOf(kind, texts)[i]; v == ValueOf(kind, texts[i]) && if kind.ParamString? then v.StrValue? else v.IntValue?
  {
    if texts != [] {
      ValuesOfKind(kind, texts[1..]);
    }
  }

  lemma EntryApplies(store: Store, s: nat, ts: seq<Token>)
    requires s < |store| && AllSound(store) && ReadEntry(store, s, ts).ok
    ensures var e := ReadEntry(store, s, ts);
      |e.mentions| == 1 && e.store == Apply(store, e.mentions[0]) && AllSound(e.store)
  {
    hide ReadValue, ClearUnlocked, Apply, ConfigOption.Sound;
    var token, ts1 := Head(ts), Tail(ts);
    var ts2 := if token.FlowEntry? then Tail(ts1) else ts1;
    var name, ts3 := Head(ts2), Tail(ts2);
    var r := Ref(s, FindIn(store[s].options, name.text).value);
    ValueApplies(store, r, Head(Tail(ts3)), Tail(Tail(ts3)));
    ApplySound(store, ReadEntry(store, s, ts).mentions[0]);
  }

  lemma {:induction false} EntriesApply(store: Store, s: nat, ts: seq<Token>)
    requires s < |store| && AllSound(store) && ReadEntries(store, s, ts).ok
    ensures var x := ReadEntries(store, s, ts); x.store == ApplyAll(store, x.mentions) && AllSound(x.store)
    decreases |ts|
  {
    hide ReadEntry, Apply, AllSound;
    EndKeepsStore(store, s, ts);
    var e := ReadEntry(store, s, ts);
    if e.ok {
      EntryKeeps(store, s, ts);
      EntryApplies(store, s, ts);
      EntriesApply(e.store, s, e.rest);
      var more := ReadEntries(e.store, s, e.rest);
      assert (e.mentions + more.mentions)[0] == e.mentions[0] && (e.mentions + more.mentions)[1..] == more.mentions;
    }
  }

  lemma EndKeepsStore(store: Store, s: nat, ts: seq<Token>)
    requires s < |store|
    ensures !ReadEntry(store, s, ts).ok && ReadEntry(store, s, ts).last ==> ReadEntry(store, s, ts).store == store
  {
    hide ReadItems, ClearUnlocked, FindIn, SetScalar, SetsScalar;
  }

  lemma {:induction false} SectionsApply(store: Store, ts: seq<Token>)
    requires AllSound(store) && ReadSections(store, ts).Returns? && ReadSections(store, ts).r.ok
    ensures var x := ReadSections(store, ts).r; x.store == ApplyAll(store, x.mentions) && AllSound(x.store)
    decreases |ts|
  {
    hide ReadEntries, AllSound;
    if Head(ts).Key? {
      var name, ts2 := Head(Tail(ts)), Tail(Tail(ts));
      var section := ReadSection(store, name.text, ts2).r;
      var s := FindSection(store, name.text);
      if s.Some? {
        EntriesApply(store, s.value, Tail(Tail(ts2)));
      }
      SectionsApply(section.store, section.rest);
      var more := ReadSections(section.store, section.rest).r;
      ApplyAllSplits(store, section.mentions, more.mentions);
    }
  }

  /** An accepted document does exactly what applying its mentions in order does. */
  lemma DocumentApplies(store: Store, ts: seq<Token>)
    requires AllSound(store) && ReadDocument(store, ts).Returns? && ReadDocument(store, ts).r.ok
    ensures var x := ReadDocument(store, ts).r; x.store == ApplyAll(store, x.mentions) && AllSound(x.store)
  {
    hide ReadSections, AllSound;
    SectionsApply(store, ReadInit(ts).1);
  }

  /** The last mention of an option, if any. */
  function LastMention(ms: seq<Mention>, r: Ref): Option<seq<string>> {
    if ms == [] then None
    else if ms[|ms| - 1].r == r then Some(ms[|ms| - 1].texts)
    else LastMention(ms[..|ms| - 1], r)
  }

  /** After any mentions a locked option is as before, an unlocked one holds its last mention's values. */
  lemma {:induction false} LastMentionDecides(store: Store, ms: seq<Mention>, r: Ref)
    requires InStore(store, r)
    ensures InStore(ApplyAll(store, ms), r)
    ensures var o, o' := At(store, r), At(ApplyAll(store, ms), r);
      o' == if o.Locked() || LastMention(ms, r) == None then o else Holding(o, LastMention(ms, r).value)
  {
    hide ValuesOf;
    if ms != [] {
      var n := |ms| - 1;
      LastMentionDecides(store, ms[..n], r);
      assert ms == ms[..n] + [ms[n]];
      ApplyAllSplits(store, ms[..n], [ms[n]]);
      assert ApplyAll(ApplyAll(store, ms[..n]), [ms[n]]) == Apply(ApplyAll(store, ms[..n]), ms[n]);
    }
  }

  // ----------------------------------------------------------------------------------------------
  // Printing a document and reading it back
  // ----------------------------------------------------------------------------------------------

  datatype Style = Block | Flow

  /** What stands in front of a list item: block items have a mark, flow items one between them. */
  datatype Mark = NoMark | BlockMark | FlowMark

  datatype Item = Item(mark: Mark, text: string)

  function TextsOf(items: seq<Item>): (texts: seq<string>)
    ensures |texts| == |items|
  {
    if items == [] then [] else [items[0].text] + TextsOf(items[1..])
  }

  /**
    The syntax of an entry's value.  The reader does not compare where a list starts with where it ends, nor its
    marks with either; in a well-formed document they agree.
   */
  datatype EntryValue = One(text: string) | Many(start: Style, items: seq<Item>, end: Style) {
    function Texts(): seq<string> {
      if One? then [text] else TextsOf(items)
    }
  }

  /** An entry, with the mark that separates it from the one before in flow style. */
  datatype DocEntry = DocEntry(marked: bool, name: string, value: EntryValue)

  /** A section of known options, or one that is skipped token by token. */
  datatype DocSection =
    | Known(name: string, start: Style, entries: seq<DocEntry>, end: Style)
    | Skipped(name: string, tokens: seq<Token>)

  function PrintMark(mark: Mark): seq<Token> {
    match mark case NoMark => [] case BlockMark => [BlockEntry] case FlowMark => [FlowEntry]
  }

  function PrintItem(item: Item): seq<Token> {
    PrintMark(item.mark) + [Scalar(item.text)]
  }

  function PrintItems(items: seq<Item>): seq<Token> {
    if items == [] then [] else PrintItem(items[0]) + PrintItems(items[1..])
  }

  function ListStart(style: Style): Token { if style.Block? then BlockSequenceStart else FlowSequenceStart }

  function ListEnd(style: Style): Token { if style.Block? then BlockEnd else FlowSequenceEnd }

  function MappingStart(style: Style): Token { if style.Block? then BlockMappingStart else FlowMappingStart }

  function MappingEnd(style: Style): Token { if style.Block? then BlockEnd else FlowMappingEnd }

  function PrintValue(v: EntryValue): seq<Token> {
    match v
    case One(text) => [Scalar(text)]
    case Many(start, items, end) => [ListStart(start)] + (PrintItems(items) + [ListEnd(end)])
  }

  function PrintEntry(e: DocEntry): seq<Token> {
    (if e.marked then [FlowEntry] else []) + ([Key, Scalar(e.name), ValueMark] + PrintValue(e.value))
  }

  function PrintEntries(entries: seq<DocEntry>): seq<Token> {
    if entries == [] then [] else PrintEntry(entries[0]) + PrintEntries(entries[1..])
  }

  /** A section behind its key and name. */
  function PrintBody(d: DocSection): seq<Token> {
    match d
    case Known(_, start, entries, end) => [ValueMark, MappingStart(start)] + (PrintEntries(entries) + [MappingEnd(end)])
    case Skipped(_, tokens) => tokens + [BlockEnd]
  }

  function PrintSection(d: DocSection): seq<Token> {
    [Key, Scalar(d.name)] + PrintBody(d)
  }

  function PrintSections(sections: seq<DocSection>): seq<Token> {
    if sections == [] then [] else PrintSection(sections[0]) + PrintSections(sections[1..])
  }

  function PrintDocument(sections: seq<DocSection>): seq<Token> {
    [StreamStart, DocumentStart, BlockMappingStart] + (PrintSections(sections) + [BlockEnd])
  }

  /** The entry names an option of section s that can take its value. */
  ghost predicate GoodEntry(store: Store, s: nat, e: DocEntry)
    requires s < |store|
  {
    && FindIn(store[s].options, e.name).Some?
    && var o := store[s].options[FindIn(store[s].options, e.name).value];
       && (e.value.Many? ==> o.multivalued != 0)
       && (!o.Locked() ==> forall t :: t in e.value.Texts() ==> o.Readable(t))
  }

  /** What is known is a section of the store, and what is skipped is not and has no block end inside. */
  ghost predicate Fitting(store: Store, d: DocSection) {
    (d.Known? <==> FindSection(store, d.name).Some?) && (d.Skipped? ==> BlockEnd !in d.tokens)
  }

  ghost predicate GoodSection(store: Store, d: DocSection) {
    Fitting(store, d) && (d.Known? ==> forall i :: 0 <= i < |d.entries| ==> GoodEntry(store, FindSection(store, d.name).value, d.entries[i]))
  }

  function EntryMention(store: Store, s: nat, e: DocEntry): Mention
    requires s < |store|
  {
    match FindIn(store[s].options, e.name)
    case Some(o) => Mention(Ref(s, o), e.value.Texts())
    case None => Mention(Ref(s, 0), [])
  }

  function EntryMentions(store: Store, s: nat, entries: seq<DocEntry>): seq<Mention>
    requires s < |store|
  {
    if entries == [] then [] else [EntryMention(store, s, entries[0])] + EntryMentions(store, s, entries[1..])
  }

  function SectionMentions(store: Store, d: DocSection): seq<Mention> {
    match FindSection(store, d.name)
    case Some(s) => if d.Known? then EntryMentions(store, s, d.entries) else []
    case None => []
  }

  /** The mentions of a document: those of its known sections' entries, in order. */
  function DocMentions(store: Store, sections: seq<DocSection>): seq<Mention> {
    if sections == [] then [] else SectionMentions(store, sections[0]) + DocMentions(store, sections[1..])
  }

  // Lookups and readability do not depend on values.

  lemma SameNamesFound(options: seq<ConfigOption>, options': seq<ConfigOption>, name: string)
    requires |options'| == |options| && forall i :: 0 <= i < |options| ==> options'[i].name == options[i].name
    ensures FindIn(options', name) == FindIn(options, name)
  {
    hide FindIn;
  }

  lemma KeptFindIn(store: Store, store': Store, s: nat, name: string)
    requires Kept(store, store') && s < |store|
    ensures FindIn(store'[s].options, name) == FindIn(store[s].options, name)
  {
    hide FindIn, FindSection;
    forall i | 0 <= i < |store[s].options|
      ensures store'[s].options[i].name == store[s].options[i].name
    {
      assert Frame(At(store', Ref(s, i))) == Frame(At(store, Ref(s, i)));
    }
    SameNamesFound(store[s].options, store'[s].options, name);
  }

  lemma KeptBack(store: Store, store': Store)
    requires Kept(store, store')
    ensures Kept(store', store)
  {
    forall r | InStore(store', r) && At(store', r).Locked() ensures At(store, r) == At(store', r) {
      assert Frame(At(store', r)) == Frame(At(store, r));
    }
  }

  lemma KeptGoodEntry(store: Store, store': Store, s: nat, e: DocEntry)
    requires Kept(store, store') && s < |store| && GoodEntry(store, s, e)
    ensures GoodEntry(store', s, e) && EntryMention(store', s, e) == EntryMention(store, s, e)
  {
    KeptFindIn(store, store', s, e.name);
    var r := Ref(s, FindIn(store[s].options, e.name).value);
    assert Frame(At(store', r)) == Frame(At(store, r));
  }

  lemma KeptGoodness(store: Store, store': Store, s: nat, e: DocEntry)
    requires Kept(store, store') && s < |store| == |store'|
    ensures GoodEntry(store', s, e) <==> GoodEntry(store, s, e)
  {
    hide Kept, GoodEntry;
    KeptBack(store, store');
    if GoodEntry(store', s, e) {
      KeptGoodEntry(store', store, s, e);
    }
    if GoodEntry(store, s, e) {
      KeptGoodEntry(store, store', s, e);
    }
  }

  lemma KeptSetsScalar(store: Store, store': Store, r: Ref, text: string)
    requires Kept(store, store') && InStore(store, r)
    ensures InStore(store', r) && SetsScalar(store', r, text) == SetsScalar(store, r, text)
  {
    assert Frame(At(store', r)) == Frame(At(store, r));
  }

  lemma KeptMultivalued(store: Store, store': Store, r: Ref)
    requires Kept(store, store') && InStore(store, r)
    ensures InStore(store', r) && At(store', r).multivalued == At(store, r).multivalued
  {
    assert Frame(At(store', r)) == Frame(At(store, r));
  }

  lemma {:induction false} KeptEntryMentions(store: Store, store': Store, s: nat, entries: seq<DocEntry>)
    requires Kept(store, store') && s < |store| == |store'|
    ensures EntryMentions(store', s, entries) == EntryMentions(store, s, entries)
    decreases |entries|
  {
    hide Kept;
    if entries != [] {
      KeptFindIn(store, store', s, entries[0].name);
      KeptEntryMentions(store, store', s, entries[1..]);
    }
  }

  lemma KeptFindSection(store: Store, store': Store, name: string)
    requires Kept(store, store')
    ensures FindSection(store', name) == FindSection(store, name)
  {
    hide FindSection, FindIn, Frame;
  }

  lemma KeptSection(store: Store, store': Store, d: DocSection)
    requires Kept(store, store') && |store'| == |store|
    ensures Fitting(store', d) <==> Fitting(store, d)
    ensures GoodSection(store', d) <==> GoodSection(store, d)
    ensures SectionMentions(store', d) == SectionMentions(store, d)
  {
    hide GoodEntry, EntryMentions, Kept;
    KeptFindSection(store, store', d.name);
    if s :| FindSection(store, d.name) == Some(s) && d.Known? {
      forall i | 0 <= i < |d.entries|
        ensures GoodEntry(store', s, d.entries[i]) <==> GoodEntry(store, s, d.entries[i])
      {
        KeptGoodness(store, store', s, d.entries[i]);
      }
      KeptEntryMentions(store, store', s, d.entries);
    }
  }

  lemma {:induction false} KeptDocMentions(store: Store, store': Store, sections: seq<DocSection>)
    requires Kept(store, store') && |store'| == |store|
    ensures DocMentions(store', sections) == DocMentions(store, sections)
    decreases |sections|
  {
    hide Kept, SectionMentions;
    if sections != [] {
      KeptSection(store, store', sections[0]);
      KeptDocMentions(store, store', sections[1..]);
    }
  }

  // Items.

  lemma NoItems(store: Store, r: Ref, end: Style, rest: seq<Token>)
    requires InStore(store, r)
    ensures var x := ReadItems(store, r, [ListEnd(end)] + rest); x.0 && x.1 == store && x.2 == rest && x.3 == []
  {
    assert Tail([ListEnd(end)] + rest) == rest;
  }

  lemma ItemIsRead(store: Store, r: Ref, item: Item, more: seq<Token>)
    requires InStore(store, r) && InStore(SetScalar(store, r, item.text), r)
    ensures var x := ReadItems(store, r, PrintItem(item) + more);
      var y := ReadItems(SetScalar(store, r, item.text), r, more);
      if SetsScalar(store, r, item.text) then x.0 == y.0 && x.1 == y.1 && x.2 == y.2 && x.3 == [item.text] + y.3 else !x.0
  {
    hide SetScalar, SetsScalar;
    var ts1 := [Scalar(item.text)] + more;
    var ts := PrintItem(item) + more;
    assert if item.mark.NoMark? then ts == ts1 else Head(ts) == PrintMark(item.mark)[0] && Tail(ts) == ts1;
    assert Head(ts1) == Scalar(item.text) && Tail(ts1) == more;
  }

  /** Items are read to the end of their list exactly if the option takes them all. */
  lemma {:induction false} ItemsReadBack(store: Store, r: Ref, items: seq<Item>, end: Style, rest: seq<Token>)
    requires InStore(store, r)
    ensures var x := ReadItems(store, r, PrintItems(items) + ([ListEnd(end)] + rest));
      && (x.0 <==> forall t :: t in TextsOf(items) ==> SetsScalar(store, r, t))
      && (x.0 ==> x.2 == rest && x.3 == TextsOf(items))
    decreases |items|
  {
    hide Kept, SetsScalar, SetScalar, ReadItems, PrintItem;
    var tail := [ListEnd(end)] + rest;
    if items == [] {
      NoItems(store, r, end, rest);
      assert PrintItems(items) + tail == tail;
    } else {
      var t := items[0].text;
      ScalarKeeps(store, r, t);
      var store' := SetScalar(store, r, t);
      forall u | u in TextsOf(items[1..]) ensures SetsScalar(store', r, u) == SetsScalar(store, r, u) {
        KeptSetsScalar(store, store', r, u);
      }
      ItemsReadBack(store', r, items[1..], end, rest);
      ItemIsRead(store, r, items[0], PrintItems(items[1..]) + tail);
      assert PrintItems(items) + tail == PrintItem(items[0]) + (PrintItems(items[1..]) + tail);
      assert t in TextsOf(items) && forall u :: u in TextsOf(items) <==> u == t || u in TextsOf(items[1..]);
    }
  }

  /** Whatever is read as an item is the print of one. */
  lemma ItemHasSyntax(store: Store, r: Ref, ts: seq<Token>) returns (item: Item, ts2: seq<Token>)
    requires InStore(store, r) && ReadItems(store, r, ts).0
    requires Head(ts).BlockEntry? || Head(ts).FlowEntry? || Head(ts).Scalar?
    ensures ts == PrintItem(item) + ts2 && |ts2| < |ts|
    ensures InStore(SetScalar(store, r, item.text), r)
    ensures var x, y := ReadItems(store, r, ts), ReadItems(SetScalar(store, r, item.text), r, ts2); y.0 && x.2 == y.2
  {
    hide SetScalar, SetsScalar, Kept;
    var token, ts1 := Head(ts), Tail(ts);
    var scalar := if token.Scalar? then token else Head(ts1);
    ts2 := if token.Scalar? then ts1 else Tail(ts1);
    item := Item(if token.Scalar? then NoMark else if token.BlockEntry? then BlockMark else FlowMark, scalar.text);
    ScalarKeeps(store, r, scalar.text);
    HeadTail(ts);
    HeadTail(ts1);
    assert ts == PrintItem(item) + ts2;
  }

  /** Whatever is read as items is the print of some. */
  lemma {:induction false} ItemsHaveSyntax(store: Store, r: Ref, ts: seq<Token>) returns (items: seq<Item>, end: Style)
    requires InStore(store, r) && ReadItems(store, r, ts).0
    ensures ts == PrintItems(items) + ([ListEnd(end)] + ReadItems(store, r, ts).2)
    decreases |ts|
  {
    hide SetScalar, SetsScalar, Kept, ReadItems, PrintItem;
    if Head(ts).BlockEntry? || Head(ts).FlowEntry? || Head(ts).Scalar? {
      var item, ts2 := ItemHasSyntax(store, r, ts);
      var more;
      more, end := ItemsHaveSyntax(SetScalar(store, r, item.text), r, ts2);
      items := [item] + more;
      PrintFirst(item, more, [ListEnd(end)] + ReadItems(store, r, ts).2);
    } else {
      end := ItemsEnd(store, r, ts);
      items := [];
    }
  }

  lemma PrintFirst(item: Item, more: seq<Item>, tail: seq<Token>)
    ensures PrintItems([item] + more) + tail == PrintItem(item) + (PrintItems(more) + tail)
  {
    assert ([item] + more)[1..] == more;
  }

  lemma ItemsEnd(store: Store, r: Ref, ts: seq<Token>) returns (end: Style)
    requires InStore(store, r) && ReadItems(store, r, ts).0 && !(Head(ts).BlockEntry? || Head(ts).FlowEntry? || Head(ts).Scalar?)
    ensures ts == PrintItems([]) + ([ListEnd(end)] + ReadItems(store, r, ts).2)
  {
    end := if Head(ts).BlockEnd? then Block else Flow;
    HeadTail(ts);
  }

  lemma HeadTail(ts: seq<Token>)
    ensures Head(ts) != NoToken ==> ts == [Head(ts)] + Tail(ts)
  {
  }

  // Values and entries.

  ghost predicate StartsValue(token: Token) {
    token.Scalar? || token.BlockSequenceStart? || token.FlowSequenceStart?
  }

  /** A printed value is accepted exactly if the option takes it, and is read to its end. */
  lemma ValueReadsBack(store: Store, r: Ref, v: EntryValue, rest: seq<Token>)
    requires InStore(store, r)
    ensures var ts := PrintValue(v) + rest;
      var x := ReadValue(store, r, Head(ts), Tail(ts));
      && StartsValue(Head(ts)) && !x.last
      && (x.ok <==> (v.Many? ==> At(store, r).multivalued != 0) && forall t :: t in v.Texts() ==> SetsScalar(store, r, t))
      && (x.ok ==> x.rest == rest && x.mentions == [Mention(r, v.Texts())])
  {
    hide ReadItems, PrintItems, SetsScalar, SetScalar, TextsOf;
    var ts := PrintValue(v) + rest;
    if v.Many? {
      ItemsReadBack(store, r, v.items, v.end, rest);
      assert Tail(ts) == PrintItems(v.items) + ([ListEnd(v.end)] + rest);
    } else {
      assert Tail(ts) == rest;
    }
  }

  lemma PrintManyIs(start: Style, items: seq<Item>, end: Style, rest: seq<Token>)
    ensures PrintValue(Many(start, items, end)) + rest == [ListStart(start)] + (PrintItems(items) + ([ListEnd(end)] + rest))
  {
    hide PrintItems;
  }

  lemma ValueHasSyntax(store: Store, r: Ref, ts: seq<Token>) returns (v: EntryValue)
    requires InStore(store, r) && StartsValue(Head(ts)) && ReadValue(store, r, Head(ts), Tail(ts)).ok
    ensures ts == PrintValue(v) + ReadValue(store, r, Head(ts), Tail(ts)).rest
  {
    hide ReadItems, PrintItems, SetsScalar, SetScalar, PrintValue;
    HeadTail(ts);
    if Head(ts).Scalar? {
      v := One(Head(ts).text);
      PrintOneIs(Head(ts).text);
    } else {
      var start := if Head(ts).BlockSequenceStart? then Block else Flow;
      var items, end := ItemsHaveSyntax(store, r, Tail(ts));
      v := Many(start, items, end);
      PrintManyIs(start, items, end, ReadItems(store, r, Tail(ts)).2);
    }
  }

  lemma PrintOneIs(text: string)
    ensures PrintValue(One(text)) == [Scalar(text)]
  {
  }

  /** The tokens of an entry up to its value, one scan after the other. */
  lemma EntryStart(name: string, marked: bool, tail: seq<Token>)
    ensures var ts := (if marked then [FlowEntry] else []) + ([Key, Scalar(name), ValueMark] + tail);
      var ts1 := if marked then Tail(ts) else ts;
      && (if marked then Head(ts) == FlowEntry && Head(Tail(ts)) == Key else Head(ts) == Key)
      && Head(ts1) == Key && Head(Tail(ts1)) == Scalar(name) && Head(Tail(Tail(ts1))) == ValueMark && Tail(Tail(Tail(ts1))) == tail
  {
    var ts1 := [Key, Scalar(name), ValueMark] + tail;
    var ts := (if marked then [FlowEntry] else []) + ts1;
    assert if marked then Head(ts) == FlowEntry && Tail(ts) == ts1 else ts == ts1;
    assert Tail(ts1) == [Scalar(name), ValueMark] + tail;
    assert Tail([Scalar(name), ValueMark] + tail) == [ValueMark] + tail;
    assert Tail([ValueMark] + tail) == tail;
  }

  /** The tokens in front of an entry's value lead to that value, if the section has the option. */
  lemma EntryHeader(store: Store, s: nat, name: string, marked: bool, tail: seq<Token>)
    requires s < |store| && StartsValue(Head(tail))
    ensures var x := ReadEntry(store, s, (if marked then [FlowEntry] else []) + ([Key, Scalar(name), ValueMark] + tail));
      match FindIn(store[s].options, name)
      case None => !x.ok && !x.last
      case Some(o) => var r := Ref(s, o); x == ReadValue(ClearUnlocked(store, r), r, Head(tail), Tail(tail))
  {
    hide ReadValue, ClearUnlocked, FindIn;
    EntryStart(name, marked, tail);
  }

  /** A printed entry is accepted exactly if it is good, and is read to its end. */
  lemma EntryReadsBack(store: Store, s: nat, e: DocEntry, rest: seq<Token>)
    requires s < |store|
    ensures var x := ReadEntry(store, s, PrintEntry(e) + rest);
      && !x.last && (x.ok <==> GoodEntry(store, s, e))
      && (x.ok ==> x.rest == rest && x.mentions == [EntryMention(store, s, e)])
  {
    hide Kept, ReadValue, ReadEntry, PrintValue, PrintEntry, ConfigOption.Readable, ClearUnlocked, EntryValue.Texts;
    var tail := PrintValue(e.value) + rest;
    PrintEntryIs(e, rest);
    if o :| FindIn(store[s].options, e.name) == Some(o) {
      var r := Ref(s, o);
      ScalarKeeps(store, r, "");
      var cleared := ClearUnlocked(store, r);
      forall t | t in e.value.Texts() ensures SetsScalar(cleared, r, t) == SetsScalar(store, r, t) {
        KeptSetsScalar(store, cleared, r, t);
      }
      KeptMultivalued(store, cleared, r);
      ValueReadsBack(cleared, r, e.value, rest);
    } else {
      ValueStarts(e.value, rest);
    }
    EntryHeader(store, s, e.name, e.marked, tail);
  }

  lemma ValueStarts(v: EntryValue, rest: seq<Token>)
    ensures StartsValue(Head(PrintValue(v) + rest))
  {
    hide PrintItems;
  }

  lemma PrintEntryIs(e: DocEntry, rest: seq<Token>)
    ensures PrintEntry(e) + rest == (if e.marked then [FlowEntry] else []) + ([Key, Scalar(e.name), ValueMark] + (PrintValue(e.value) + rest))
  {
    hide PrintValue;
  }

  /** An accepted entry starts as an entry does. */
  lemma EntryShape(store: Store, s: nat, ts: seq<Token>)
    requires s < |store| && ReadEntry(store, s, ts).ok
    ensures var ts1 := if Head(ts).FlowEntry? then Tail(ts) else ts;
      && Head(ts1) == Key && Head(Tail(ts1)).Scalar? && Head(Tail(Tail(ts1))) == ValueMark
      && FindIn(store[s].options, Head(Tail(ts1)).text).Some? && StartsValue(Head(Tail(Tail(Tail(ts1)))))
  {
    hide ReadValue, ClearUnlocked, FindIn;
  }

  lemma EntryHasSyntax(store: Store, s: nat, ts: seq<Token>) returns (e: DocEntry)
    requires s < |store| && ReadEntry(store, s, ts).ok
    ensures ts == PrintEntry(e) + ReadEntry(store, s, ts).rest
  {
    hide Kept, ReadEntry, ReadValue, PrintValue, ClearUnlocked, PrintEntry, StartsValue;
    EntryShape(store, s, ts);
    var marked := Head(ts).FlowEntry?;
    var ts1 := if marked then Tail(ts) else ts;
    var name, tail := Head(Tail(ts1)).text, Tail(Tail(Tail(ts1)));
    var r := Ref(s, FindIn(store[s].options, name).value);
    EntryTokens(ts, marked);
    EntryHeader(store, s, name, marked, tail);
    ScalarKeeps(store, r, "");
    var v := ValueHasSyntax(ClearUnlocked(store, r), r, tail);
    e := DocEntry(marked, name, v);
    PrintEntryIs(e, ReadEntry(store, s, ts).rest);
  }

  lemma EntryTokens(ts: seq<Token>, marked: bool)
    requires var ts1 := if marked then Tail(ts) else ts;
      && (marked ==> Head(ts) == FlowEntry)
      && Head(ts1) == Key && Head(Tail(ts1)).Scalar? && Head(Tail(Tail(ts1))) == ValueMark
    ensures var ts1 := if marked then Tail(ts) else ts;
      ts == (if marked then [FlowEntry] else []) + ([Key, Scalar(Head(Tail(ts1)).text), ValueMark] + Tail(Tail(Tail(ts1))))
  {
    var ts1 := if marked then Tail(ts) else ts;
    HeadTail(ts);
    HeadTail(ts1);
    HeadTail(Tail(ts1));
    HeadTail(Tail(Tail(ts1)));
    assert ts1 == [Key] + ([Head(Tail(ts1))] + ([ValueMark] + Tail(Tail(Tail(ts1)))));
  }

  /** Printed entries are accepted exactly if they are all good, and are read to the end of their section. */
  lemma {:induction false} EntriesReadBack(store: Store, s: nat, entries: seq<DocEntry>, end: Style, rest: seq<Token>)
    requires s < |store|
    ensures var x := ReadEntries(store, s, PrintEntries(entries) + ([MappingEnd(end)] + rest));
      && (x.ok <==> forall i :: 0 <= i < |entries| ==> GoodEntry(store, s, entries[i]))
      && (x.ok ==> x.rest == rest && x.mentions == EntryMentions(store, s, entries))
    decreases |entries|
  {
    hide Kept, GoodEntry, ReadEntry, EntryMention, PrintEntry;
    var tail := [MappingEnd(end)] + rest;
    var ts := PrintEntries(entries) + tail;
    if entries == [] {
      assert ts == tail;
      SectionEnds(store, s, end, rest);
    } else {
      var more := PrintEntries(entries[1..]) + tail;
      assert ts == PrintEntry(entries[0]) + more;
      EntryReadsBack(store, s, entries[0], more);
      EntryKeeps(store, s, ts);
      if GoodEntry(store, s, entries[0]) {
        var store' := ReadEntry(store, s, ts).store;
        forall i | 0 <= i < |entries[1..]| ensures GoodEntry(store', s, entries[1..][i]) <==> GoodEntry(store, s, entries[i + 1]) {
          KeptGoodness(store, store', s, entries[1..][i]);
        }
        EntriesReadBack(store', s, entries[1..], end, rest);
        KeptEntryMentions(store, store', s, entries[1..]);
        AllOrFirst(store, s, entries);
      }
    }
  }

  lemma AllOrFirst(store: Store, s: nat, entries: seq<DocEntry>)
    requires s < |store| && entries != []
    ensures (forall i :: 0 <= i < |entries| ==> GoodEntry(store, s, entries[i]))
       <==> GoodEntry(store, s, entries[0]) && forall i :: 0 <= i < |entries[1..]| ==> GoodEntry(store, s, entries[1..][i])
  {
    hide GoodEntry;
    if GoodEntry(store, s, entries[0]) && forall i :: 0 <= i < |entries[1..]| ==> GoodEntry(store, s, entries[1..][i]) {
      forall i | 0 <= i < |entries| ensures GoodEntry(store, s, entries[i]) {
        assert i > 0 ==> entries[i] == entries[1..][i - 1];
      }
    }
  }

  lemma SectionEnds(store: Store, s: nat, end: Style, rest: seq<Token>)
    requires s < |store|
    ensures var e := ReadEntry(store, s, [MappingEnd(end)] + rest); !e.ok && e.last && e.store == store && e.rest == rest
  {
    assert Tail([MappingEnd(end)] + rest) == rest;
  }

  lemma {:induction false} EntriesHaveSyntax(store: Store, s: nat, ts: seq<Token>) returns (entries: seq<DocEntry>, end: Style)
    requires s < |store| && ReadEntries(store, s, ts).ok
    ensures ts == PrintEntries(entries) + ([MappingEnd(end)] + ReadEntries(store, s, ts).rest)
    decreases |ts|
  {
    hide ReadEntry, PrintEntry;
    EntryKeeps(store, s, ts);
    var e := ReadEntry(store, s, ts);
    if e.ok {
      var first := EntryHasSyntax(store, s, ts);
      var more;
      more, end := EntriesHaveSyntax(e.store, s, e.rest);
      entries := [first] + more;
      assert entries[1..] == more;
    } else {
      EndIsToken(store, s, ts);
      entries, end := [], if Head(ts).BlockEnd? then Block else Flow;
      HeadTail(ts);
    }
  }

  lemma EndIsToken(store: Store, s: nat, ts: seq<Token>)
    requires s < |store| && !ReadEntry(store, s, ts).ok && ReadEntry(store, s, ts).last
    ensures (Head(ts).BlockEnd? || Head(ts).FlowMappingEnd?) && ReadEntry(store, s, ts).rest == Tail(ts)
  {
    hide ReadItems, ClearUnlocked, FindIn, SetScalar, SetsScalar;
  }

  // Sections and documents.

  lemma {:induction false} SkipStopsAtFirst(a: seq<Token>, rest: seq<Token>)
    requires BlockEnd !in a
    ensures SkipBlock(a + ([BlockEnd] + rest)) == Some(rest)
    decreases |a|
  {
    var ts := a + ([BlockEnd] + rest);
    if a == [] {
      assert ts[1..] == rest;
    } else {
      assert ts[1..] == a[1..] + ([BlockEnd] + rest);
      SkipStopsAtFirst(a[1..], rest);
    }
  }

  lemma {:induction false} SkippedHasSyntax(ts: seq<Token>) returns (a: seq<Token>)
    requires SkipBlock(ts).Some?
    ensures BlockEnd !in a && ts == a + ([BlockEnd] + SkipBlock(ts).value)
  {
    if ts[0].BlockEnd? {
      a := [];
    } else {
      var more := SkippedHasSyntax(ts[1..]);
      a := [ts[0]] + more;
    }
  }

  /** A printed section behind its key and name is accepted exactly if it is good, and is read to its end. */
  lemma SectionReadsBack(store: Store, d: DocSection, rest: seq<Token>)
    requires Fitting(store, d)
    ensures var x := ReadSection(store, d.name, PrintBody(d) + rest);
      && x.Returns? && (x.r.ok <==> GoodSection(store, d))
      && (x.r.ok ==> x.r.rest == rest && x.r.mentions == SectionMentions(store, d))
  {
    hide GoodEntry, ReadEntries, PrintEntries, EntryMentions, SkipBlock;
    match d
    case Known(_, start, entries, end) =>
      var body := PrintEntries(entries) + ([MappingEnd(end)] + rest);
      assert PrintBody(d) + rest == [ValueMark, MappingStart(start)] + body;
      assert Tail([ValueMark, MappingStart(start)] + body) == [MappingStart(start)] + body;
      EntriesReadBack(store, FindSection(store, d.name).value, entries, end, rest);
    case Skipped(_, tokens) =>
      assert PrintBody(d) + rest == tokens + ([BlockEnd] + rest);
      SkipStopsAtFirst(tokens, rest);
  }

  lemma SectionHasSyntax(store: Store, name: string, ts: seq<Token>) returns (d: DocSection)
    requires ReadSection(store, name, ts).Returns? && ReadSection(store, name, ts).r.ok
    ensures d.name == name && Fitting(store, d) && ts == PrintBody(d) + ReadSection(store, name, ts).r.rest
  {
    hide ReadEntries, PrintEntries, SkipBlock;
    match FindSection(store, name)
    case Some(s) =>
      var entries, end := EntriesHaveSyntax(store, s, Tail(Tail(ts)));
      d := Known(name, if Head(Tail(ts)).BlockMappingStart? then Block else Flow, entries, end);
      HeadTail(ts);
      HeadTail(Tail(ts));
    case None =>
      var tokens := SkippedHasSyntax(ts);
      d := Skipped(name, tokens);
  }

  /** Printed sections are accepted exactly if they are all good, and are read to the end of the document. */
  lemma {:induction false} SectionsReadBack(store: Store, sections: seq<DocSection>, rest: seq<Token>)
    requires forall i :: 0 <= i < |sections| ==> Fitting(store, sections[i])
    ensures var x := ReadSections(store, PrintSections(sections) + ([BlockEnd] + rest));
      && x.Returns? && (x.r.ok <==> forall i :: 0 <= i < |sections| ==> GoodSection(store, sections[i]))
      && (x.r.ok ==> x.r.rest == rest && x.r.mentions == DocMentions(store, sections))
    decreases |sections|
  {
    hide Kept, GoodSection, Fitting, SectionMentions, ReadSection, PrintBody;
    var tail := [BlockEnd] + rest;
    var ts := PrintSections(sections) + tail;
    if sections == [] {
      assert ts == tail && Tail(ts) == rest;
    } else {
      var d, more := sections[0], PrintSections(sections[1..]) + tail;
      assert ts == [Key, Scalar(d.name)] + (PrintBody(d) + more);
      SectionStart(d.name, PrintBody(d) + more);
      SectionReadsBack(store, d, more);
      if GoodSection(store, d) {
        SectionKeeps(store, d.name, PrintBody(d) + more);
        var store' := ReadSection(store, d.name, PrintBody(d) + more).r.store;
        forall i | 0 <= i < |sections[1..]|
          ensures Fitting(store', sections[1..][i]) && (GoodSection(store', sections[1..][i]) <==> GoodSection(store, sections[1..][i]))
        {
          KeptSection(store, store', sections[1..][i]);
        }
        SectionsReadBack(store', sections[1..], rest);
        KeptDocMentions(store, store', sections[1..]);
        AllOrFirstSection(store, sections);
      }
    }
  }

  lemma AllOrFirstSection(store: Store, sections: seq<DocSection>)
    requires sections != []
    ensures (forall i :: 0 <= i < |sections| ==> GoodSection(store, sections[i]))
       <==> GoodSection(store, sections[0]) && forall i :: 0 <= i < |sections[1..]| ==> GoodSection(store, sections[1..][i])
  {
    hide GoodSection;
    if GoodSection(store, sections[0]) && forall i :: 0 <= i < |sections[1..]| ==> GoodSection(store, sections[1..][i]) {
      forall i | 0 <= i < |sections| ensures GoodSection(store, sections[i]) {
        assert i > 0 ==> sections[i] == sections[1..][i - 1];
      }
    }
  }

  lemma SectionStart(name: string, body: seq<Token>)
    ensures var ts := [Key, Scalar(name)] + body; Head(ts) == Key && Head(Tail(ts)) == Scalar(name) && Tail(Tail(ts)) == body
  {
    assert Tail([Key, Scalar(name)] + body) == [Scalar(name)] + body;
  }

  lemma PrintFirstSection(d: DocSection, more: seq<DocSection>, tail: seq<Token>)
    ensures PrintSections([d] + more) + tail == [Key, Scalar(d.name)] + (PrintBody(d) + (PrintSections(more) + tail))
  {
    hide PrintBody;
    assert ([d] + more)[1..] == more;
  }

  lemma NameTokens(ts: seq<Token>)
    requires Head(ts) == Key && Head(Tail(ts)).Scalar?
    ensures ts == [Key, Scalar(Head(Tail(ts)).text)] + Tail(Tail(ts))
  {
    HeadTail(ts);
    HeadTail(Tail(ts));
  }

  lemma {:induction false} SectionsHaveSyntax(store: Store, ts: seq<Token>) returns (sections: seq<DocSection>)
    requires ReadSections(store, ts).Returns? && ReadSections(store, ts).r.ok
    ensures ts == PrintSections(sections) + ([BlockEnd] + ReadSections(store, ts).r.rest)
    ensures forall i :: 0 <= i < |sections| ==> Fitting(store, sections[i])
    decreases |ts|
  {
    hide ReadSection, Kept, Fitting, PrintBody, PrintSections;
    if Head(ts).BlockEnd? {
      sections := [];
      HeadTail(ts);
      NoSections();
    } else {
      var name, ts2 := Head(Tail(ts)).text, Tail(Tail(ts));
      NameTokens(ts);
      var section := ReadSection(store, name, ts2).r;
      var d := SectionHasSyntax(store, name, ts2);
      SectionKeeps(store, name, ts2);
      var more := SectionsHaveSyntax(section.store, section.rest);
      forall i | 0 <= i < |more| ensures Fitting(store, more[i]) {
        KeptSection(store, section.store, more[i]);
      }
      sections := [d] + more;
      PrintFirstSection(d, more, [BlockEnd] + ReadSections(store, ts).r.rest);
    }
  }

  lemma NoSections()
    ensures PrintSections([]) == []
  {
  }

  lemma DocumentStarts(store: Store, body: seq<Token>)
    ensures ReadDocument(store, [StreamStart, DocumentStart, BlockMappingStart] + body) == ReadSections(store, body)
  {
    hide ReadSections;
    var ts := [StreamStart, DocumentStart, BlockMappingStart] + body;
    assert Tail(ts) == [DocumentStart, BlockMappingStart] + body;
    assert Tail(Tail(Tail(ts))) == body;
  }

  /**
    A document, followed by anything, is accepted exactly if every entry of its known sections names an option of its
    section and carries values that the option takes.  Then it is read to its end and does to the store exactly what
    folding its entries in order does.
   */
  lemma DocumentReadsBack(store: Store, sections: seq<DocSection>, rest: seq<Token>)
    requires AllSound(store) && forall i :: 0 <= i < |sections| ==> Fitting(store, sections[i])
    ensures var x := ReadDocument(store, PrintDocument(sections) + rest);
      && x.Returns? && (x.r.ok <==> forall i :: 0 <= i < |sections| ==> GoodSection(store, sections[i]))
      && (x.r.ok ==> x.r.rest == rest && x.r.mentions == DocMentions(store, sections)
                     && x.r.store == ApplyAll(store, DocMentions(store, sections)))
  {
    hide GoodSection, Fitting, ReadSections, ReadDocument, PrintSections, AllSound, DocMentions, ApplyAll;
    var body := PrintSections(sections) + ([BlockEnd] + rest);
    var ts := [StreamStart, DocumentStart, BlockMappingStart] + body;
    assert PrintDocument(sections) + rest == ts;
    DocumentStarts(store, body);
    SectionsReadBack(store, sections, rest);
    if ReadDocument(store, ts).r.ok {
      DocumentApplies(store, ts);
    }
  }

  /** The tokens are the print of a good document, followed by the rest. */
  ghost predicate Spells(store: Store, ts: seq<Token>, sections: seq<DocSection>, rest: seq<Token>) {
    ts == PrintDocument(sections) + rest && forall i :: 0 <= i < |sections| ==> GoodSection(store, sections[i])
  }

  lemma InitTokens(ts: seq<Token>)
    requires ReadInit(ts).0
    ensures ts == [StreamStart, DocumentStart, BlockMappingStart] + ReadInit(ts).1
  {
    HeadTail(ts);
    HeadTail(Tail(ts));
    HeadTail(Tail(Tail(ts)));
  }

  lemma PrintDocumentIs(sections: seq<DocSection>, rest: seq<Token>)
    ensures PrintDocument(sections) + rest == [StreamStart, DocumentStart, BlockMappingStart] + (PrintSections(sections) + ([BlockEnd] + rest))
  {
    hide PrintSections;
  }

  /** Whatever is accepted is the print of a good document, followed by the rest. */
  lemma DocumentHasSyntax(store: Store, ts: seq<Token>) returns (sections: seq<DocSection>)
    requires AllSound(store) && ReadDocument(store, ts).Returns? && ReadDocument(store, ts).r.ok
    ensures Spells(store, ts, sections, ReadDocument(store, ts).r.rest)
  {
    hide ReadSections, AllSound, GoodSection, Fitting, PrintDocument, PrintSections, ReadInit;
    var rest := ReadDocument(store, ts).r.rest;
    InitTokens(ts);
    sections := SectionsHaveSyntax(store, ReadInit(ts).1);
    PrintDocumentIs(sections, rest);
    DocumentReadsBack(store, sections, rest);
  }

  /** A token stream is accepted if and only if it starts with the print of a good document. */
  lemma DocumentAcceptedExactly(store: Store, ts: seq<Token>)
    requires AllSound(store)
    ensures var x := ReadDocument(store, ts);
      (x.Returns? && x.r.ok) <==> exists sections, rest :: Spells(store, ts, sections, rest)
  {
    hide ReadDocument, AllSound, Spells;
    var x := ReadDocument(store, ts);
    if x.Returns? && x.r.ok {
      var sections := DocumentHasSyntax(store, ts);
    }
    if sections, rest :| Spells(store, ts, sections, rest) {
      SpelledIsAccepted(store, ts, sections, rest);
    }
  }

  lemma SpelledIsAccepted(store: Store, ts: seq<Token>, sections: seq<DocSection>, rest: seq<Token>)
    requires AllSound(store) && Spells(store, ts, sections, rest)
    ensures ReadDocument(store, ts).Returns? && ReadDocument(store, ts).r.ok
  {
    hide ReadDocument, AllSound, GoodSection, Fitting, PrintDocument;
    GoodIsFitting(store, sections);
    DocumentReadsBack(store, sections, rest);
  }

  lemma GoodIsFitting(store: Store, sections: seq<DocSection>)
    requires forall i :: 0 <= i < |sections| ==> GoodSection(store, sections[i])
    ensures forall i :: 0 <= i < |sections| ==> Fitting(store, sections[i])
  {
  }

  // ----------------------------------------------------------------------------------------------
  // Halting
  // ----------------------------------------------------------------------------------------------

  /** The token that the n-th scan yields: past the end of the stream, no token for ever. */
  function Scanned(ts: seq<Token>, n: nat): Token {
    if n < |ts| then ts[n] else NoToken
  }

  /** The skipping loop stops after n scans exactly if the n-th token is the first block end; without one it never stops. */
  lemma {:induction false} SkipExactly(ts: seq<Token>)
    ensures SkipBlock(ts) == None <==> forall n: nat :: !Scanned(ts, n).BlockEnd?
    ensures SkipBlock(ts).Some? ==>
      var n := |ts| - |SkipBlock(ts).value| - 1;
      && Scanned(ts, n).BlockEnd? && ts[n + 1..] == SkipBlock(ts).value
      && forall k :: 0 <= k < n ==> !Scanned(ts, k).BlockEnd?
    decreases |ts|
  {
    if ts != [] && !ts[0].BlockEnd? {
      SkipExactly(ts[1..]);
      assert forall n: nat :: n > 0 ==> Scanned(ts, n) == Scanned(ts[1..], n - 1);
      assert Scanned(ts, 0) == ts[0];
      if SkipBlock(ts) == None {
        forall n: nat ensures !Scanned(ts, n).BlockEnd? {
          if n > 0 {
            assert !Scanned(ts[1..], n - 1).BlockEnd?;
          }
        }
      } else {
        var m := |ts[1..]| - |SkipBlock(ts[1..]).value| - 1;
        assert Scanned(ts, m + 1).BlockEnd?;
      }
    } else if ts != [] {
      assert Scanned(ts, 0).BlockEnd?;
    }
  }

  /** The positions in `all` at which the reader, with only `ts` left of it, reads a section's name. */
  ghost function NamePositions(store: Store, all: seq<Token>, ts: seq<Token>): set<int>
    decreases |ts|
  {
    var name, ts2 := Head(Tail(ts)), Tail(Tail(ts));
    if !Head(ts).Key? || !name.Scalar? then {} else
      {|all| - |ts| + 1}
      + match ReadSection(store, name.text, ts2)
        case Hangs => {}
        case Returns(section) => if section.ok then NamePositions(section.store, all, section.rest) else {}
  }

  /** If the token at i is a name that no section has, a block end follows it. */
  ghost predicate Closed(store: Store, all: seq<Token>, i: int) {
    0 <= i < |all| && (all[i].Scalar? && FindSection(store, all[i].text) == None ==> exists j :: i < j < |all| && all[j].BlockEnd?)
  }

  ghost predicate Suffix(a: seq<Token>, b: seq<Token>) {
    |a| <= |b| && a == b[|b| - |a|..]
  }

  lemma SuffixTails(a: seq<Token>, b: seq<Token>)
    requires Suffix(a, b)
    ensures Suffix(Tail(a), b)
  {
  }

  lemma SuffixOnwards(a: seq<Token>, b: seq<Token>, c: seq<Token>)
    requires Suffix(a, b) && Suffix(b, c)
    ensures Suffix(a, c)
  {
  }

  lemma {:induction false} ItemsSuffix(store: Store, r: Ref, ts: seq<Token>)
    requires InStore(store, r)
    ensures Suffix(ReadItems(store, r, ts).2, ts)
    decreases |ts|
  {
    hide SetScalar, SetsScalar, Suffix;
    assert Suffix(ts, ts) by { SuffixItself(ts); }
    SuffixTails(ts, ts);
    SuffixTails(Tail(ts), ts);
    var token, ts1 := Head(ts), Tail(ts);
    if token.BlockEntry? || token.FlowEntry? || token.Scalar? {
      var scalar := if token.Scalar? then token else Head(ts1);
      var ts2 := if token.Scalar? then ts1 else Tail(ts1);
      if scalar.Scalar? {
        ScalarKeeps(store, r, scalar.text);
        ItemsSuffix(SetScalar(store, r, scalar.text), r, ts2);
        SuffixOnwards(ReadItems(SetScalar(store, r, scalar.text), r, ts2).2, ts2, ts);
      }
    }
  }

  lemma SuffixItself(ts: seq<Token>)
    ensures Suffix(ts, ts)
  {
  }

  lemma EntrySuffix(store: Store, s: nat, ts: seq<Token>)
    requires s < |store|
    ensures Suffix(ReadEntry(store, s, ts).rest, ts)
  {
    hide ReadItems, SetScalar, SetsScalar, ClearUnlocked, Suffix, Kept;
    SuffixItself(ts);
    var t1 := Tail(ts); SuffixTails(ts, ts);
    var t2 := Tail(t1); SuffixTails(t1, ts);
    var t3 := Tail(t2); SuffixTails(t2, ts);
    var t4 := Tail(t3); SuffixTails(t3, ts);
    var t5 := Tail(t4); SuffixTails(t4, ts);
    SuffixTails(t5, ts);
    var ts2 := if Head(ts).FlowEntry? then t2 else t1;
    var ts5 := if Head(ts).FlowEntry? then Tail(t4) else t4;
    var name := Head(ts2);
    if name.Scalar? && FindIn(store[s].options, name.text).Some? {
      var r := Ref(s, FindIn(store[s].options, name.text).value);
      ScalarKeeps(store, r, "");
      ItemsSuffix(ClearUnlocked(store, r), r, Tail(Tail(Tail(ts2))));
      SuffixOnwards(ReadItems(ClearUnlocked(store, r), r, Tail(Tail(Tail(ts2)))).2, Tail(Tail(Tail(ts2))), ts);
    }
  }

  lemma {:induction false} EntriesSuffix(store: Store, s: nat, ts: seq<Token>)
    requires s < |store|
    ensures Suffix(ReadEntries(store, s, ts).rest, ts)
    decreases |ts|
  {
    hide ReadEntry, Suffix;
    EntrySuffix(store, s, ts);
    EntryKeeps(store, s, ts);
    var e := ReadEntry(store, s, ts);
    if e.ok {
      EntriesSuffix(e.store, s, e.rest);
      SuffixOnwards(ReadEntries(e.store, s, e.rest).rest, e.rest, ts);
    }
  }

  lemma SectionSuffix(store: Store, name: string, ts: seq<Token>)
    requires ReadSection(store, name, ts).Returns?
    ensures Suffix(ReadSection(store, name, ts).r.rest, ts)
  {
    hide ReadEntries, Suffix;
    SuffixItself(ts);
    SuffixTails(ts, ts);
    SuffixTails(Tail(ts), ts);
    match FindSection(store, name)
    case Some(s) =>
      EntriesSuffix(store, s, Tail(Tail(ts)));
      SuffixOnwards(ReadEntries(store, s, Tail(Tail(ts))).rest, Tail(Tail(ts)), ts);
    case None =>
      SkipExactly(ts);
      SuffixFrom(ts, |ts| - |SkipBlock(ts).value|);
  }

  lemma SuffixFrom(ts: seq<Token>, n: nat)
    requires n <= |ts|
    ensures Suffix(ts[n..], ts)
  {
  }

  /** An unknown section is skipped to its end exactly if its name is closed. */
  lemma ReadSectionHalts(store0: Store, store: Store, all: seq<Token>, ts: seq<Token>)
    requires Kept(store0, store) && Suffix(ts, all)
    requires Head(ts).Key? && Head(Tail(ts)).Scalar?
    ensures ReadSection(store, Head(Tail(ts)).text, Tail(Tail(ts))).Returns? <==> Closed(store0, all, |all| - |ts| + 1)
  {
    hide ReadEntries, Kept, SkipBlock;
    var name, ts2 := Head(Tail(ts)), Tail(Tail(ts));
    var i := |all| - |ts| + 1;
    assert all[i] == name && ts2 == all[i + 1..];
    KeptFindSection(store0, store, name.text);
    SkipExactly(ts2);
    if j :| i < j < |all| && all[j].BlockEnd? {
      assert Scanned(ts2, j - i - 1).BlockEnd?;
    }
    if SkipBlock(ts2).Some? {
      var n := |ts2| - |SkipBlock(ts2).value| - 1;
      assert Scanned(ts2, n).BlockEnd?;
      assert all[i + 1 + n].BlockEnd?;
    }
  }

  lemma {:induction false} SectionsHaltExactly(store0: Store, store: Store, all: seq<Token>, ts: seq<Token>)
    requires Kept(store0, store) && Suffix(ts, all)
    ensures ReadSections(store, ts).Returns? <==> forall i :: i in NamePositions(store, all, ts) ==> Closed(store0, all, i)
    decreases |ts|
  {
    hide ReadSection, Kept, Closed, Suffix;
    var name, ts2 := Head(Tail(ts)), Tail(Tail(ts));
    if Head(ts).Key? && name.Scalar? {
      ReadSectionHalts(store0, store, all, ts);
      if ReadSection(store, name.text, ts2).Returns? && ReadSection(store, name.text, ts2).r.ok {
        var section := ReadSection(store, name.text, ts2).r;
        SectionKeeps(store, name.text, ts2);
        SectionSuffix(store, name.text, ts2);
        KeptOnwards(store0, store, section.store);
        SuffixTails(ts, all);
        SuffixTails(Tail(ts), all);
        SuffixOnwards(section.rest, ts2, all);
        SectionsHaltExactly(store0, section.store, all, section.rest);
      }
    }
  }

  /** Reading a stream halts exactly if each name it reads that no section has is followed, later, by a block end. */
  lemma DocumentHaltsExactly(store: Store, ts: seq<Token>)
    ensures var (ok, rest) := ReadInit(ts);
      ReadDocument(store, ts).Returns? <==> (ok ==> forall i :: i in NamePositions(store, ts, rest) ==> Closed(store, ts, i))
  {
    hide ReadSections, NamePositions, Closed, Suffix, Kept;
    SuffixItself(ts);
    SuffixTails(ts, ts);
    SuffixTails(Tail(ts), ts);
    SuffixTails(Tail(Tail(ts)), ts);
    KeptItself(store);
    if ReadInit(ts).0 {
      SectionsHaltExactly(store, store, ts, ReadInit(ts).1);
    }
  }

  /** A scalar at i directly follows a key. */
  ghost predicate FollowsKey(ts: seq<Token>, i: int) {
    0 < i < |ts| && ts[i].Scalar? && ts[i - 1].Key?
  }

  /** Where the reader reads a section's name, a scalar directly follows a key. */
  lemma {:induction false} NamesFollowKeys(store: Store, all: seq<Token>, ts: seq<Token>)
    requires Suffix(ts, all)
    ensures forall i :: i in NamePositions(store, all, ts) ==> FollowsKey(all, i)
    decreases |ts|
  {
    hide ReadSection, Suffix, FollowsKey;
    var name, ts2 := Head(Tail(ts)), Tail(Tail(ts));
    if Head(ts).Key? && name.Scalar? {
      NameAt(all, ts);
      if ReadSection(store, name.text, ts2).Returns? && ReadSection(store, name.text, ts2).r.ok {
        var section := ReadSection(store, name.text, ts2).r;
        SectionSuffix(store, name.text, ts2);
        SuffixTails(ts, all);
        SuffixTails(Tail(ts), all);
        SuffixOnwards(section.rest, ts2, all);
        NamesFollowKeys(section.store, all, section.rest);
      }
    }
  }

  lemma NameAt(all: seq<Token>, ts: seq<Token>)
    requires Suffix(ts, all) && Head(ts).Key? && Head(Tail(ts)).Scalar?
    ensures FollowsKey(all, |all| - |ts| + 1)
  {
  }

  /** If every scalar that directly follows a key and names no section has a later block end, the reader returns. */
  lemma ClosedNamesReturn(store: Store, ts: seq<Token>)
    requires forall i :: FollowsKey(ts, i) && FindSection(store, ts[i].text) == None ==>
      exists j :: i < j < |ts| && ts[j].BlockEnd?
    ensures ReadDocument(store, ts).Returns?
  {
    hide ReadDocument, NamePositions, Suffix;
    DocumentHaltsExactly(store, ts);
    SuffixItself(ts);
    SuffixTails(ts, ts);
    SuffixTails(Tail(ts), ts);
    SuffixTails(Tail(Tail(ts)), ts);
    if ReadInit(ts).0 {
      NamesFollowKeys(store, ts, ReadInit(ts).1);
    }
  }

  /** The smallest stream on which it does not: a section nobody registered, and no block end. */
  lemma ReadingCanHang()
    ensures ReadDocument([], [StreamStart, DocumentStart, BlockMappingStart, Key, Scalar("x")]) == Hangs
  {
    var ts := [StreamStart, DocumentStart, BlockMappingStart, Key, Scalar("x")];
    assert Tail(Tail(Tail(ts))) == [Key, Scalar("x")];
    assert Tail(Tail([Key, Scalar("x")])) == [];
    assert SkipBlock([]) == None;
  }
}
