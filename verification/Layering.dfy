/**
  The three sources applied one after the other at start-up (src/main.c): the command line, the environment,
  and any number of YAML documents.
 */
module Layering {
  import opened Prelude
  import opened ConfigStore
  import opened ConfigYaml
  import opened ConfigEnv
  import opened CommandLine
  import Names

  /** The store and the mentions after documents of which each is accepted, or None if one is not. */
  function ReadAll(store: Store, docs: seq<seq<Token>>): Option<(Store, seq<Mention>)>
    decreases |docs|
  {
    if docs == [] then Some((store, [])) else
      match ReadDocument(store, docs[0])
      case Hangs => None
      case Returns(x) =>
        if !x.ok then None else
          match ReadAll(x.store, docs[1..])
          case None => None
          case Some((store', ms)) => Some((store', x.mentions + ms))
  }

  lemma {:induction false} AllApply(store: Store, docs: seq<seq<Token>>)
    requires AllSound(store) && ReadAll(store, docs).Some?
    ensures ReadAll(store, docs).value.0 == ApplyAll(store, ReadAll(store, docs).value.1)
    decreases |docs|
  {
    hide AllSound, ReadDocument;
    if docs != [] {
      DocumentApplies(store, docs[0]);
      var x := ReadDocument(store, docs[0]).r;
      AllApply(x.store, docs[1..]);
      ApplyAllSplits(store, x.mentions, ReadAll(x.store, docs[1..]).value.1);
    }
  }

  /** What an option without values takes from readable texts: all, or the first if it holds only one. */
  function Taken(o: ConfigOption, texts: seq<string>): seq<Value> {
    ValuesOf(o.kind, if o.multivalued != 0 || texts == [] then texts else texts[..1])
  }

  lemma {:induction false} FullTakesNothing(o: ConfigOption, texts: seq<string>)
    requires o.multivalued == 0 && o.numValues > 0
    ensures AddTexts(o, texts) == o
    decreases |texts|
  {
    if texts != [] {
      FullTakesNothing(o, texts[1..]);
    }
  }

  lemma {:induction false} ReadableAreAll(o: ConfigOption, texts: seq<string>)
    requires forall t :: t in texts ==> o.Readable(t)
    ensures ReadableOnes(o, texts) == texts
  {
    if texts != [] {
      assert texts[0] in texts;
      ReadableAreAll(o, texts[1..]);
    }
  }

  lemma AddTextsTakes(o: ConfigOption, texts: seq<string>)
    requires o.Sound() && o.values == [] && forall t :: t in texts ==> o.Readable(t)
    ensures AddTexts(o, texts).values == Taken(o, texts)
  {
    hide ConfigOption.AddText, ConfigOption.Readable, ValueOf;
    if o.multivalued != 0 {
      AddTextsAppends(o, texts);
      ReadableAreAll(o, texts);
      assert [] + ValuesOf(o.kind, texts) == ValuesOf(o.kind, texts);
    } else if texts != [] {
      assert texts[0] in texts;
      AddTextAppends(o, texts[0]);
      FullTakesNothing(o.AddText(texts[0]), texts[1..]);
      assert texts[..1][0] == texts[0] && texts[..1][1..] == [];
      assert [] + [ValueOf(o.kind, texts[0])] == ValuesOf(o.kind, texts[..1]);
    }
  }

  /** The arguments of an accepted command line are readable for their options. */
  lemma {:induction false} ArgsAreReadable(store: Store, events: seq<Event>, r: Ref)
    requires InStore(store, r) && Run(store, events).0
    ensures forall t :: t in ArgsFor(store, events, r) ==> At(store, r).Readable(t)
    decreases |events|
  {
    hide Handled, Handles, ConfigOption.Readable;
    if events != [] {
      var e := events[0];
      HandledSizes(store, e);
      HandledOption(store, e, r);
      HandledFrame(store, e, r);
      ArgsAreReadable(Handled(store, e), events[1..], r);
      SameArgs(store, Handled(store, e), events[1..], r);
      assert [e][1..] == [] && ArgsFor(store, [], r) == [];
      assert ArgsFor(store, events, r) == ArgsFor(store, [e], r) + ArgsFor(store, events[1..], r);
    }
  }

  lemma HandledFrame(store: Store, e: Event, r: Ref)
    requires InStore(store, r)
    ensures InStore(Handled(store, e), r)
    ensures forall t :: At(Handled(store, e), r).Readable(t) == At(store, r).Readable(t)
  {
  }

  /** What reaches an option from each source. */
  datatype Given = Given(args: seq<string>, variable: Option<string>, mention: Option<seq<string>>)

  /** Whether the variable, read after a command line that did not mention the option, locks it. */
  predicate VariableLocks(o: ConfigOption, value: string) {
    (':' in value && o.multivalued == 1) || o.Readable(value)
  }

  /** The values that an option should end up with, given what reaches it, and whether it is locked. */
  function Resolved(o: ConfigOption, g: Given): (seq<Value>, bool) {
    if g.args != [] then (Taken(o, g.args), true)
    else if g.variable.Some? && VariableLocks(o, g.variable.value) then
      (ValuesOf(o.kind, if ':' in g.variable.value && o.multivalued == 1
                        then ReadableOnes(o, Pieces(g.variable.value)) else [g.variable.value]), true)
    else if g.mention.Some? then (ValuesOf(o.kind, g.mention.value), false)
    else ([], false)
  }

  /** An option after the command line alone. */
  lemma AfterCommandLine(o: ConfigOption, args: seq<string>)
    requires o.Sound() && o.values == [] && !o.Locked() && forall t :: t in args ==> o.Readable(t)
    ensures var o1 := FromArgs(o, args);
      if args == [] then o1 == o else o1.values == Taken(o, args) && o1.Locked()
    ensures FromArgs(o, args).Sound()
  {
    hide ConfigOption.Readable, ConfigOption.AddText;
    AddTextsTakes(o, args);
    AddTextsSound(o, args);
  }

  lemma {:induction false} AddTextsSound(o: ConfigOption, texts: seq<string>)
    requires o.Sound()
    ensures AddTexts(o, texts).Sound() && Frame(AddTexts(o, texts)) == Frame(o)
    decreases |texts|
  {
    hide ConfigOption.AddText, ConfigOption.Sound;
    if texts != [] {
      AddTextIsSound(o, texts[0]);
      AddTextFrame(o, texts[0]);
      AddTextsSound(o.AddText(texts[0]), texts[1..]);
    }
  }

  /** An option that the command line left alone, after its variable was read. */
  lemma AfterEnvironment(o: ConfigOption, variable: Option<string>)
    requires o.Sound() && o.values == [] && !o.Locked()
    ensures var o2 := FromEnvironment(o, variable);
      && o2.Sound()
      && if variable.Some? && VariableLocks(o, variable.value)
         then o2.Locked() && o2.values == Resolved(o, Given([], variable, None)).0
         else o2 == o
  {
    hide ConfigOption.AddText, ConfigOption.Readable, ValueOf, Pieces;
    if variable.Some? {
      var v := variable.value;
      AddTextIsSound(o, v);
      if ':' in v && o.multivalued == 1 {
        AddTextsAppends(o, Pieces(v));
        var texts := ReadableOnes(o, Pieces(v));
        assert [] + ValuesOf(o.kind, texts) == ValuesOf(o.kind, texts);
      } else if o.Readable(v) {
        AddTextAppends(o, v);
        assert [v][1..] == [] && [] + [ValueOf(o.kind, v)] == ValuesOf(o.kind, [v]);
      }
    }
  }

  /**
    After any accepted command line, then any environment, then any accepted documents, every option that
    started without values holds exactly what the first source that locked it gave it; if none did, exactly the
    values of its last mention in the documents.  Every position reads as that list says, and if it is empty as
    the default, at position 0 only.
   */
  lemma SourcesAreLayered(store: Store, events: seq<Event>, env: Environment, store2: Store, docs: seq<seq<Token>>, r: Ref)
    requires SoundStore(store) && AllEmpty(store) && InStore(store, r)
    requires Run(store, events).0 && EnvironmentRead(env, Run(store, events).1, store2) && ReadAll(store2, docs).Some?
    ensures var (store3, mentions) := ReadAll(store2, docs).value;
      var o := At(store, r);
      var given := Given(ArgsFor(store, events, r), Getenv(env, Names.EnvironmentName(store[r.s].name, o.name)), LastMention(mentions, r));
      && InStore(store3, r)
      && (At(store3, r).values, At(store3, r).Locked()) == Resolved(o, given)
      && (forall p :: ReadsAt(o.(values := Resolved(o, given).0), p, At(store3, r).Nth(p)))
  {
    hide SoundStore, AllEmpty, EnvironmentRead, AllSound, Run, ReadAll, FromArgs, FromEnvironment, ConfigOption.Readable, Resolved, Kept;
    var (store3, mentions) := ReadAll(store2, docs).value;
    FreshOption(store, r);
    var o := At(store, r);
    var store1 := Run(store, events).1;
    var args := ArgsFor(store, events, r);
    RunDecides(store, events, r);
    ArgsAreReadable(store, events, r);
    AfterCommandLine(o, args);
    var o1 := FromArgs(o, args);
    RunKeepsNames(store, events, r);
    var variable := Getenv(env, Names.EnvironmentName(store[r.s].name, o.name));
    EnvironmentOfOption(env, store1, store2, r);
    var o2 := FromEnvironment(o1, variable);
    SoundAfterSources(store, events, env, store2);
    AllApply(store2, docs);
    LastMentionDecides(store2, mentions, r);
    OptionIsLayered(o, args, variable, LastMention(mentions, r), At(store3, r));
  }

  /** Every option is unlocked and without values, as after registration. */
  ghost predicate AllEmpty(store: Store) {
    forall r :: InStore(store, r) ==> At(store, r).values == [] && !At(store, r).Locked()
  }

  lemma FreshOption(store: Store, r: Ref)
    requires SoundStore(store) && AllEmpty(store) && InStore(store, r)
    ensures At(store, r).Sound() && At(store, r).values == [] && !At(store, r).Locked()
  {
  }

  lemma EnvironmentOfOption(env: Environment, store1: Store, store2: Store, r: Ref)
    requires EnvironmentRead(env, store1, store2) && InStore(store1, r)
    ensures InStore(store2, r)
    ensures At(store2, r) == FromEnvironment(At(store1, r), Getenv(env, Names.EnvironmentName(store1[r.s].name, At(store1, r).name)))
  {
  }

  lemma {:induction false} RunKeepsNames(store: Store, events: seq<Event>, r: Ref)
    requires InStore(store, r) && Run(store, events).0
    ensures var store' := Run(store, events).1;
      InStore(store', r) && store'[r.s].name == store[r.s].name && At(store', r).name == At(store, r).name
    decreases |events|
  {
    hide Handled, Handles;
    if events != [] {
      HandledSizes(store, events[0]);
      HandledName(store, events[0], r);
      RunKeepsNames(Handled(store, events[0]), events[1..], r);
    }
  }

  lemma HandledName(store: Store, e: Event, r: Ref)
    requires InStore(store, r)
    ensures InStore(Handled(store, e), r) && At(Handled(store, e), r).name == At(store, r).name
  {
  }

  lemma SoundAfterSources(store: Store, events: seq<Event>, env: Environment, store2: Store)
    requires SoundStore(store) && AllEmpty(store) && Run(store, events).0 && EnvironmentRead(env, Run(store, events).1, store2)
    ensures AllSound(store2)
  {
    hide SoundStore, AllEmpty, EnvironmentRead, FromArgs, FromEnvironment, ConfigOption.Readable, Run, ConfigOption.Sound;
    forall r | InStore(store2, r) ensures At(store2, r).Sound() {
      SameOptions(store, events, env, store2, r);
      FreshOption(store, r);
      RunDecides(store, events, r);
      ArgsAreReadable(store, events, r);
      AfterCommandLine(At(store, r), ArgsFor(store, events, r));
      EnvironmentOfOption(env, Run(store, events).1, store2, r);
      EnvironmentIsSound(At(Run(store, events).1, r), Getenv(env, Names.EnvironmentName(Run(store, events).1[r.s].name, At(Run(store, events).1, r).name)));
    }
  }

  lemma SameOptions(store: Store, events: seq<Event>, env: Environment, store2: Store, r: Ref)
    requires Run(store, events).0 && EnvironmentRead(env, Run(store, events).1, store2) && InStore(store2, r)
    ensures InStore(store, r)
  {
    RunSizes(store, events);
  }

  lemma {:induction false} RunSizes(store: Store, events: seq<Event>)
    ensures SameSizes(store, Run(store, events).1)
    decreases |events|
  {
    hide Handled, Handles;
    if events != [] {
      HandledSizes(store, events[0]);
      RunSizes(Handled(store, events[0]), events[1..]);
    }
  }

  lemma EnvironmentIsSound(o: ConfigOption, variable: Option<string>)
    requires o.Sound()
    ensures FromEnvironment(o, variable).Sound()
  {
    hide ConfigOption.AddText, ConfigOption.Readable, Pieces;
    if variable.Some? {
      AddTextIsSound(o, variable.value);
      AddTextsSound(o, Pieces(variable.value));
    }
  }

  /** The layers of one option put together. */
  lemma OptionIsLayered(o: ConfigOption, args: seq<string>, variable: Option<string>, mention: Option<seq<string>>, o3: ConfigOption)
    requires o.Sound() && o.values == [] && !o.Locked() && forall t :: t in args ==> o.Readable(t)
    requires var o2 := FromEnvironment(FromArgs(o, args), variable);
      o3 == if o2.Locked() || mention == None then o2 else Holding(o2, mention.value)
    ensures var given := Given(args, variable, mention);
      && (o3.values, o3.Locked()) == Resolved(o, given)
      && (forall p :: ReadsAt(o.(values := Resolved(o, given).0), p, o3.Nth(p)))
  {
    hide ConfigOption.Readable, ConfigOption.AddText, ValueOf, Pieces, ReadableOnes;
    AfterCommandLine(o, args);
    AddTextsSound(o, args);
    var o1 := FromArgs(o, args);
    EnvironmentIsSound(o1, variable);
    EnvironmentFrame(o1, variable);
    if args == [] {
      AfterEnvironment(o, variable);
    }
    assert o3.Sound() || mention.Some?;
    assert o3.numValues == |o3.values|;
    assert o3.defaultSet == o.defaultSet && o3.defaultValue == o.defaultValue && o3.multivalued == o.multivalued;
    var values := Resolved(o, Given(args, variable, mention)).0;
    forall p ensures ReadsAt(o.(values := values), p, o3.Nth(p)) {
      NthReadsAt(o3, p);
    }
  }

  lemma EnvironmentFrame(o: ConfigOption, variable: Option<string>)
    requires o.Sound()
    ensures var o2 := FromEnvironment(o, variable);
      && o2.defaultSet == o.defaultSet && o2.defaultValue == o.defaultValue && o2.multivalued == o.multivalued
      && (o.Locked() ==> o2 == o)
  {
    hide ConfigOption.Readable, ConfigOption.AddText, Pieces;
    if variable.Some? {
      AddTextFrame(o, variable.value);
      AddTextsSound(o, Pieces(variable.value));
    }
  }
}
