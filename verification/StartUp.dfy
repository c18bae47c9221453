/** Start-up as src/main.c runs it: the options are registered, then the three sources are read one after the other. */
module StartUp {
  import opened Prelude
  import opened ConfigStore
  import opened ConfigYaml
  import opened ConfigEnv
  import opened CommandLine
  import opened Layering
  import opened YamlReader
  import Names

  /** No document makes the reader go on for ever, up to the first that is rejected. */
  ghost predicate AllReturn(store: Store, docs: seq<seq<Token>>)
    decreases |docs|
  {
    docs != [] ==>
      var x := ReadDocument(store, docs[0]);
      x.Returns? && (x.r.ok ==> AllReturn(x.r.store, docs[1..]))
  }

  /** The environment and the documents, read after the command line, lead to this store with these mentions. */
  ghost predicate Sourced(store1: Store, env: Environment, docs: seq<seq<Token>>, store3: Store, mentions: seq<Mention>) {
    exists store2 :: EnvironmentRead(env, store1, store2) && ReadAll(store2, docs) == Some((store3, mentions))
  }

  function GivenTo(store: Store, events: seq<Event>, env: Environment, mentions: seq<Mention>, r: Ref): Given
    requires InStore(store, r)
  {
    Given(ArgsFor(store, events, r), Getenv(env, Names.EnvironmentName(store[r.s].name, At(store, r).name)), LastMention(mentions, r))
  }

  /** Every option holds, and is locked, as its sources say. */
  ghost predicate AllLayered(store: Store, events: seq<Event>, env: Environment, mentions: seq<Mention>, store3: Store) {
    forall r :: InStore(store, r) ==>
      && InStore(store3, r)
      && (At(store3, r).values, At(store3, r).Locked()) == Resolved(At(store, r), GivenTo(store, events, env, mentions, r))
  }

  lemma {:induction false} ReadAllSplits(store: Store, docs: seq<seq<Token>>, more: seq<seq<Token>>)
    requires ReadAll(store, docs).Some?
    ensures ReadAll(store, docs + more) ==
      match ReadAll(ReadAll(store, docs).value.0, more)
      case None => None
      case Some((store', ms)) => Some((store', ReadAll(store, docs).value.1 + ms))
    decreases |docs|
  {
    hide ReadDocument;
    if docs == [] {
      assert docs + more == more;
      if ReadAll(store, more).Some? {
        assert [] + ReadAll(store, more).value.1 == ReadAll(store, more).value.1;
      }
    } else {
      assert (docs + more)[1..] == docs[1..] + more;
      ReadAllSplits(ReadDocument(store, docs[0]).r.store, docs[1..], more);
      if ReadAll(ReadAll(store, docs).value.0, more).Some? {
        var first, middle := ReadDocument(store, docs[0]).r, ReadAll(ReadDocument(store, docs[0]).r.store, docs[1..]).value.1;
        assert first.mentions + (middle + ReadAll(ReadAll(store, docs).value.0, more).value.1)
            == (first.mentions + middle) + ReadAll(ReadAll(store, docs).value.0, more).value.1;
      }
    }
  }

  lemma EverySourceIsLayered(store: Store, events: seq<Event>, env: Environment, store2: Store, docs: seq<seq<Token>>)
    requires SoundStore(store) && AllEmpty(store)
    requires Run(store, events).0 && EnvironmentRead(env, Run(store, events).1, store2) && ReadAll(store2, docs).Some?
    ensures var (store3, mentions) := ReadAll(store2, docs).value; AllLayered(store, events, env, mentions, store3)
  {
    hide SoundStore, AllEmpty, EnvironmentRead, Run, ReadAll, Resolved;
    var (store3, mentions) := ReadAll(store2, docs).value;
    forall r | InStore(store, r)
      ensures InStore(store3, r)
      ensures (At(store3, r).values, At(store3, r).Locked()) == Resolved(At(store, r), GivenTo(store, events, env, mentions, r))
    {
      SourcesAreLayered(store, events, env, store2, docs, r);
    }
  }

  /**
    Reads the command line, the environment and the documents, up to the first source that is rejected.  The
    environment is never rejected.
   */
  method ReadSources(conf: RappConfig, table: CommandTable, events: seq<Event>, env: Environment, docs: seq<seq<Token>>)
    returns (ok: bool, ghost mentions: seq<Mention>)
    requires conf.Valid() && AllEmpty(conf.sections) && table.options == null
    requires forall store2 :: Run(conf.sections, events).0 && EnvironmentRead(env, Run(conf.sections, events).1, store2) ==> AllReturn(store2, docs)
    modifies conf, table
    ensures conf.Valid()
    ensures ok ==> Run(old(conf.sections), events).0
    ensures ok ==> Sourced(Run(old(conf.sections), events).1, env, docs, conf.sections, mentions)
    ensures ok ==> AllLayered(old(conf.sections), events, env, mentions, conf.sections)
    ensures !ok && Run(old(conf.sections), events).0 ==>
      exists store2 :: EnvironmentRead(env, Run(old(conf.sections), events).1, store2) && ReadAll(store2, docs) == None
  {
    hide SoundStore, AllEmpty, EnvironmentRead, Run, ReadDocument, AllLayered, AllReturn, ReadAll;
    mentions := [];
    ghost var store := conf.sections;
    ok := table.ConfigParseCommandline(conf, events);
    if !ok {
      return;
    }
    ghost var store1 := conf.sections;
    ConfigReadEnv(conf, env);
    ghost var store2 := conf.sections;
    NothingRead(store2, docs);
    var i := 0;
    while i < |docs|
      invariant conf.Valid() && i <= |docs|
      invariant ReadAll(store2, docs[..i]).Some? && ReadAll(store2, docs[..i]).value.0 == conf.sections
      invariant AllReturn(conf.sections, docs[i..])
    {
      ghost var before := conf.sections;
      ReadOneMore(store2, docs, i);
      var parser := new YamlParser(docs[i]);
      ok := ConfigParseMain(conf, parser);
      if !ok {
        return;
      }
      i := i + 1;
    }
    assert docs[..i] == docs;
    mentions := ReadAll(store2, docs).value.1;
    assert ReadAll(store2, docs) == Some((conf.sections, mentions));
    EverySourceIsLayered(store, events, env, store2, docs);
  }

  lemma NothingRead(store: Store, docs: seq<seq<Token>>)
    ensures docs[..0] == [] && docs[0..] == docs && ReadAll(store, docs[..0]) == Some((store, []))
  {
  }

  /** One document more: accepted, or the whole list is rejected with it. */
  lemma ReadOneMore(store: Store, docs: seq<seq<Token>>, i: nat)
    requires i < |docs| && ReadAll(store, docs[..i]).Some?
    requires AllReturn(ReadAll(store, docs[..i]).value.0, docs[i..])
    ensures var x := ReadDocument(ReadAll(store, docs[..i]).value.0, docs[i]);
      && x.Returns?
      && (x.r.ok ==> ReadAll(store, docs[..i + 1]).Some? && ReadAll(store, docs[..i + 1]).value.0 == x.r.store
                     && AllReturn(x.r.store, docs[i + 1..]))
      && (!x.r.ok ==> ReadAll(store, docs) == None)
  {
    hide ReadDocument;
    var now := ReadAll(store, docs[..i]).value.0;
    assert docs[i..][0] == docs[i] && docs[i..][1..] == docs[i + 1..];
    assert docs == docs[..i] + docs[i..] && docs[..i + 1] == docs[..i] + [docs[i]];
    ReadAllSplits(store, docs[..i], docs[i..]);
    ReadAllSplits(store, docs[..i], [docs[i]]);
    assert [docs[i]][1..] == [];
    var x := ReadDocument(now, docs[i]);
    if x.Returns? && x.r.ok {
      assert ReadAll(x.r.store, []) == Some((x.r.store, []));
    }
  }
}
