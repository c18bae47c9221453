/** The environment as a source of option values (src/config/env.c). */
module ConfigEnv {
  import opened Prelude
  import opened ConfigStore
  import opened ConfigYaml
  import opened Names

  /** getenv for every name. */
  type Environment = map<string, string>

  function Getenv(env: Environment, name: string): Option<string> {
    if name in env then Some(env[name]) else None
  }

  /** Where the first colon is, or the end. */
  function PieceEnd(s: string): (n: nat)
    ensures n <= |s| && ':' !in s[..n] && (n < |s| ==> s[n] == ':')
  {
    if s == "" || s[0] == ':' then 0 else 1 + PieceEnd(s[1..])
  }

  /** What strtok_r yields for colons, one token after the other: never an empty one. */
  function Pieces(s: string): seq<string>
    decreases |s|
  {
    if s == "" then []
    else if s[0] == ':' then Pieces(s[1..])
    else [s[..PieceEnd(s)]] + Pieces(s[PieceEnd(s)..])
  }

  function AddTexts(o: ConfigOption, texts: seq<string>): ConfigOption
    decreases |texts|
  {
    if texts == [] then o else AddTexts(o.AddText(texts[0]), texts[1..])
  }

  /** An option after its variable, if there is one, was read. */
  function FromEnvironment(o: ConfigOption, value: Option<string>): ConfigOption {
    if o.Locked() || value == None then o
    else if ':' in value.value && o.multivalued == 1 then AddTexts(o, Pieces(value.value)).(noOverride := true)
    else if o.Readable(value.value) then o.AddText(value.value).(noOverride := true)
    else o
  }

  /** The store after the environment was read: every option by its own variable. */
  ghost predicate EnvironmentRead(env: Environment, store: Store, store': Store) {
    && |store'| == |store|
    && (forall i :: 0 <= i < |store| ==> store'[i].name == store[i].name && |store'[i].options| == |store[i].options|)
    && (forall r :: InStore(store, r) ==>
          At(store', r) == FromEnvironment(At(store, r), Getenv(env, EnvironmentName(store[r.s].name, At(store, r).name))))
  }

  // ----------------------------------------------------------------------------------------------
  // Lists of values
  // ----------------------------------------------------------------------------------------------

  function JoinedByColons(parts: seq<string>): string {
    if parts == [] then "" else if |parts| == 1 then parts[0] else parts[0] + ":" + JoinedByColons(parts[1..])
  }

  /** The text cut at every colon, empty parts included. */
  function Split(s: string): (parts: seq<string>)
    ensures |parts| >= 1
    decreases |s|
  {
    var n := PieceEnd(s);
    if n == |s| then [s] else [s[..n]] + Split(s[n + 1..])
  }

  function NonEmpty(parts: seq<string>): seq<string> {
    if parts == [] then [] else (if parts[0] == "" then [] else [parts[0]]) + NonEmpty(parts[1..])
  }

  /** Splitting undoes joining, */
  lemma {:induction false} SplitJoins(s: string)
    ensures JoinedByColons(Split(s)) == s && forall i :: 0 <= i < |Split(s)| ==> ':' !in Split(s)[i]
    decreases |s|
  {
    var n := PieceEnd(s);
    if n < |s| {
      SplitJoins(s[n + 1..]);
      var rest := Split(s[n + 1..]);
      assert ([s[..n]] + rest)[1..] == rest;
      assert s == s[..n] + ":" + s[n + 1..];
    }
  }

  /** and the tokens are the parts that are not empty, in order. */
  lemma {:induction false} PiecesAreNonEmptyParts(s: string)
    ensures Pieces(s) == NonEmpty(Split(s))
    decreases |s|
  {
    var n := PieceEnd(s);
    if s != "" {
      if n == |s| {
        assert s[n..] == "" && s[..n] == s && Pieces("") == [];
        assert Split(s) == [s] && [s][1..] == [] && NonEmpty([s][1..]) == [];
      } else {
        PiecesAreNonEmptyParts(s[n + 1..]);
        var rest := Split(s[n + 1..]);
        assert ([s[..n]] + rest)[1..] == rest;
        assert s[n..][1..] == s[n + 1..];
        assert s[..0] == "";
      }
    }
  }

  /** Joining non-empty colon-free parts and taking the tokens gives the parts back. */
  lemma {:induction false} PiecesOfJoined(parts: seq<string>)
    requires forall i :: 0 <= i < |parts| ==> parts[i] != "" && ':' !in parts[i]
    ensures Pieces(JoinedByColons(parts)) == parts
    decreases |parts|
  {
    if parts != [] {
      var rest := if |parts| == 1 then "" else ":" + JoinedByColons(parts[1..]);
      var s := JoinedByColons(parts);
      assert s == parts[0] + rest;
      PieceEndAt(parts[0], rest);
      assert s[..|parts[0]|] == parts[0] && s[|parts[0]|..] == rest;
      assert s[0] == parts[0][0] && parts[0][0] in parts[0];
      if |parts| > 1 {
        assert rest[1..] == JoinedByColons(parts[1..]);
        PiecesOfJoined(parts[1..]);
      }
    }
  }

  lemma {:induction false} PieceEndAt(part: string, rest: string)
    requires ':' !in part && (rest == "" || rest[0] == ':')
    ensures PieceEnd(part + rest) == |part|
    decreases |part|
  {
    if part == "" {
      assert part + rest == rest;
    } else {
      assert part[0] in part;
      assert (part + rest)[1..] == part[1..] + rest;
      PieceEndAt(part[1..], rest);
    }
  }

  function ReadableOnes(o: ConfigOption, texts: seq<string>): seq<string> {
    if texts == [] then [] else (if o.Readable(texts[0]) then [texts[0]] else []) + ReadableOnes(o, texts[1..])
  }

  lemma {:induction false} ReadableByFrame(o: ConfigOption, o': ConfigOption, texts: seq<string>)
    requires Frame(o) == Frame(o')
    ensures ReadableOnes(o', texts) == ReadableOnes(o, texts)
  {
    assert o'.kind == o.kind && o'.valueMin == o.valueMin && o'.valueMax == o.valueMax;
    if texts != [] {
      assert o'.Readable(texts[0]) == o.Readable(texts[0]);
      ReadableByFrame(o, o', texts[1..]);
    }
  }

  /** A multivalued option takes the readable texts, in order, behind what it has. */
  lemma {:induction false} AddTextsAppends(o: ConfigOption, texts: seq<string>)
    requires o.Sound() && o.multivalued != 0
    ensures AddTexts(o, texts) == Extended(o, ReadableOnes(o, texts)) && AddTexts(o, texts).Sound()
    decreases |texts|
  {
    hide ConfigOption.Sound, ConfigOption.AddText, ConfigOption.Readable, Extended;
    if texts == [] {
      ExtendedByNone(o);
    } else {
      var t, o1 := texts[0], o.AddText(texts[0]);
      AddTextIsSound(o, t);
      AddTextFrame(o, t);
      AddTextsAppends(o1, texts[1..]);
      ReadableByFrame(o, o1, texts[1..]);
      if o.Readable(t) {
        ExtendedStep(o, t, ReadableOnes(o, texts[1..]));
      } else {
        UnreadableIsDropped(o, t);
        var none: seq<string> := [];
        assert none + ReadableOnes(o, texts[1..]) == ReadableOnes(o, texts[1..]);
        assert ReadableOnes(o, texts) == ReadableOnes(o, texts[1..]);
      }
    }
  }

  lemma AddTextFrame(o: ConfigOption, text: string)
    ensures Frame(o.AddText(text)) == Frame(o) && o.AddText(text).multivalued == o.multivalued
  {
  }

  lemma UnreadableIsDropped(o: ConfigOption, text: string)
    ensures !o.Readable(text) ==> o.AddText(text) == o
  {
  }

  /**
    A list of non-empty colon-free strings, joined by colons, comes back through the environment as exactly that
    list in an empty unlocked string option, and locks it, if and only if it has a single element or the option's
    flag is 1; any other flag, though the store may hold several values under it, keeps the text in one piece.
   */
  lemma ListReadsBack(o: ConfigOption, parts: seq<string>)
    requires o.Sound() && o.kind.ParamString? && !o.Locked() && o.values == []
    requires parts != [] && forall i :: 0 <= i < |parts| ==> parts[i] != "" && ':' !in parts[i]
    ensures FromEnvironment(o, Some(JoinedByColons(parts))) == Holding(o, parts).(noOverride := true) <==> |parts| == 1 || o.multivalued == 1
    ensures !(|parts| == 1 || o.multivalued == 1) ==>
      FromEnvironment(o, Some(JoinedByColons(parts))) == Holding(o, [JoinedByColons(parts)]).(noOverride := true)
    ensures forall i :: 0 <= i < |parts| ==> Holding(o, parts).values[i] == StrValue(parts[i])
  {
    ValuesOfKind(o.kind, parts);
    var text := JoinedByColons(parts);
    if |parts| > 1 {
      assert text[|parts[0]|] == ':';
    }
    if |parts| > 1 && o.multivalued == 1 {
      ListIsHeld(o, parts);
    } else {
      TextIsHeld(o, text);
      if |parts| == 1 {
        assert parts == [text];
      }
    }
  }

  lemma ListIsHeld(o: ConfigOption, parts: seq<string>)
    requires o.Sound() && o.kind.ParamString? && !o.Locked() && o.values == [] && o.multivalued == 1
    requires forall i :: 0 <= i < |parts| ==> parts[i] != "" && ':' !in parts[i]
    ensures AddTexts(o, Pieces(JoinedByColons(parts))) == Holding(o, parts)
  {
    PiecesOfJoined(parts);
    AddTextsAppends(o, parts);
    AllReadable(o, parts);
    assert [] + ValuesOf(o.kind, parts) == ValuesOf(o.kind, parts);
  }

  /** An empty string option takes a text whole, whatever its flag. */
  lemma TextIsHeld(o: ConfigOption, text: string)
    requires o.Sound() && o.kind.ParamString? && o.values == []
    ensures o.Readable(text) && o.AddText(text) == Holding(o, [text]) && |Holding(o, [text]).values| == 1
  {
    assert [text][1..] == [] && [] + [StrValue(text)] == ValuesOf(o.kind, [text]);
  }

  /** Under flag 2 the store holds several values, but the environment gives it one. */
  lemma FlagTwoKeepsText(o: ConfigOption)
    requires o.Sound() && o.kind.ParamString? && !o.Locked() && o.values == [] && o.multivalued == 2
    ensures o.AddString("a").AddString("b").values == [StrValue("a"), StrValue("b")]
    ensures FromEnvironment(o, Some("a:b")).values == [StrValue("a:b")]
  {
    var parts := ["a", "b"];
    assert parts[1..] == ["b"];
    assert JoinedByColons(parts) == "a" + ":" + JoinedByColons(["b"]) == "a:b";
    ListReadsBack(o, parts);
    TextIsHeld(o, "a:b");
    assert o.AddText("a:b").values == [] + [StrValue("a:b")];
  }

  lemma {:induction false} AllReadable(o: ConfigOption, texts: seq<string>)
    requires o.kind.ParamString?
    ensures ReadableOnes(o, texts) == texts
  {
    if texts != [] {
      AllReadable(o, texts[1..]);
    }
  }

  // ----------------------------------------------------------------------------------------------
  // Reading the environment
  // ----------------------------------------------------------------------------------------------

  /** strtok_r for colons on `s` from position `from` on: the next token and where to go on, or none. */
  method StrtokR(s: string, from: nat) returns (token: Option<string>, next: nat)
    requires from <= |s|
    ensures from <= next <= |s|
    ensures token == None ==> Pieces(s[from..]) == []
    ensures token.Some? ==> next > from && Pieces(s[from..]) == [token.value] + Pieces(s[next..])
  {
    hide PieceEnd;
    var start := from;
    while start < |s| && s[start] == ':'
      invariant from <= start <= |s| && Pieces(s[start..]) == Pieces(s[from..])
    {
      assert s[start..][1..] == s[start + 1..];
      start := start + 1;
    }
    next := start;
    if start == |s| {
      return None, next;
    }
    while next < |s| && s[next] != ':'
      invariant start <= next <= |s| && ':' !in s[start..next]
    {
      next := next + 1;
    }
    token := Some(s[start..next]);
    FirstPiece(s, start, next);
  }

  lemma FirstPiece(s: string, start: nat, next: nat)
    requires start < next <= |s| && ':' !in s[start..next] && s[start] != ':' && (next < |s| ==> s[next] == ':')
    ensures Pieces(s[start..]) == [s[start..next]] + Pieces(s[next..])
  {
    var t := s[start..];
    assert t == s[start..next] + s[next..];
    PieceEndAt(s[start..next], s[next..]);
    assert t[..next - start] == s[start..next] && t[next - start..] == s[next..];
  }

  method AddValueFromEnvList(conf: RappConfig, r: Ref, value: string)
    requires conf.Valid() && InStore(conf.sections, r)
    modifies conf
    ensures conf.Valid()
    ensures conf.sections == With(old(conf.sections), r, AddTexts(At(old(conf.sections), r), Pieces(value)))
  {
    hide SoundStore, ConfigOption.AddText, Pieces;
    ghost var all := Pieces(value);
    assert value[0..] == value;
    WithItself(conf.sections, r);
    var token, next := StrtokR(value, 0);
    ghost var o := At(conf.sections, r);
    while token.Some?
      invariant conf.Valid() && next <= |value| && InStore(conf.sections, r)
      invariant conf.sections == With(old(conf.sections), r, At(conf.sections, r))
      invariant AddTexts(o, all) == AddTexts(At(conf.sections, r), if token.Some? then [token.value] + Pieces(value[next..]) else [])
      decreases token.Some?, |value| - next
    {
      ghost var rest := Pieces(value[next..]);
      assert ([token.value] + rest)[1..] == rest;
      WithAgain(old(conf.sections), r, At(conf.sections, r), At(conf.sections, r).AddText(token.value));
      var _ := conf.AddValueFromString(r, token.value);
      token, next := StrtokR(value, next);
    }
  }

  method GetEnvForOpt(conf: RappConfig, r: Ref, env: Environment) returns (ok: bool)
    requires conf.Valid() && InStore(conf.sections, r)
    modifies conf
    ensures conf.Valid()
    ensures var o := At(old(conf.sections), r);
      var value := Getenv(env, EnvironmentName(old(conf.sections)[r.s].name, o.name));
      && conf.sections == With(old(conf.sections), r, FromEnvironment(o, value))
      && (ok <==> o.Locked() || value == None || (':' in value.value && o.multivalued == 1) || o.Readable(value.value))
  {
    hide SoundStore, ConfigOption.AddText, ConfigOption.Readable, Pieces, AddTexts;
    var o := At(conf.sections, r);
    WithItself(conf.sections, r);
    ok := true;
    if o.noOverride {
      return;
    }
    var value := Getenv(env, EnvironmentName(conf.sections[r.s].name, o.name));
    if value == None {
      return;
    }
    if ':' in value.value && o.multivalued == 1 {
      AddValueFromEnvList(conf, r, value.value);
    } else {
      ok := conf.AddValueFromString(r, value.value);
      UnreadableIsDropped(o, value.value);
    }
    if ok {
      ghost var o' := At(conf.sections, r);
      WithAgain(old(conf.sections), r, o', o'.(noOverride := true));
      conf.Lock(r);
    }
  }

  /** Both loops of config_read_env; a variable that cannot be read stops nothing. */
  method ConfigReadEnv(conf: RappConfig, env: Environment)
    requires conf.Valid()
    modifies conf
    ensures conf.Valid() && EnvironmentRead(env, old(conf.sections), conf.sections)
  {
    hide SoundStore, FromEnvironment, EnvironmentName, Getenv, Halfway, With, EnvironmentRead;
    ghost var store := conf.sections;
    HalfwayStarts(env, store);
    var s := 0;
    while s < |conf.sections|
      invariant conf.Valid() && s <= |store| == |conf.sections| && Halfway(env, store, conf.sections, Ref(s, 0))
    {
      HalfwaySizes(env, store, conf.sections, Ref(s, 0));
      var o := 0;
      while o < |conf.sections[s].options|
        invariant conf.Valid() && s < |store| == |conf.sections| && |store[s].options| == |conf.sections[s].options|
        invariant o <= |store[s].options| && Halfway(env, store, conf.sections, Ref(s, o))
      {
        HalfwayGoesOn(env, store, conf.sections, Ref(s, o));
        var _ := GetEnvForOpt(conf, Ref(s, o), env);
        o := o + 1;
        HalfwaySizes(env, store, conf.sections, Ref(s, o));
      }
      HalfwayEndsSection(env, store, conf.sections, Ref(s, o));
      s := s + 1;
    }
    HalfwaySizes(env, store, conf.sections, Ref(s, 0));
  }

  /** The options before `to` have been read, the others are as they were. */
  ghost predicate Halfway(env: Environment, store: Store, store': Store, to: Ref) {
    && |store'| == |store|
    && (forall i :: 0 <= i < |store| ==> store'[i].name == store[i].name && |store'[i].options| == |store[i].options|)
    && (forall r :: InStore(store, r) ==>
          At(store', r) == if r.s < to.s || (r.s == to.s && r.o < to.o)
                           then FromEnvironment(At(store, r), Getenv(env, EnvironmentName(store[r.s].name, At(store, r).name)))
                           else At(store, r))
  }

  lemma HalfwayStarts(env: Environment, store: Store)
    ensures Halfway(env, store, store, Ref(0, 0))
  {
  }

  lemma HalfwaySizes(env: Environment, store: Store, store': Store, to: Ref)
    requires Halfway(env, store, store', to)
    ensures |store'| == |store|
    ensures to.s < |store| ==> |store'[to.s].options| == |store[to.s].options|
    ensures to.s == |store| ==> EnvironmentRead(env, store, store')
  {
  }

  /** One option more has been read. */
  lemma HalfwayGoesOn(env: Environment, store: Store, store': Store, to: Ref)
    requires Halfway(env, store, store', to) && InStore(store, to) && InStore(store', to)
    ensures var value := Getenv(env, EnvironmentName(store'[to.s].name, At(store', to).name));
      Halfway(env, store, With(store', to, FromEnvironment(At(store', to), value)), Ref(to.s, to.o + 1))
  {
    hide FromEnvironment, EnvironmentName, Getenv;
    var o := FromEnvironment(At(store', to), Getenv(env, EnvironmentName(store'[to.s].name, At(store', to).name)));
    var store'' := With(store', to, o);
    forall i | 0 <= i < |store| ensures |store''[i].options| == |store[i].options| {
      if i != to.s {
        assert store''[i] == store'[i];
      }
    }
  }

  lemma HalfwayEndsSection(env: Environment, store: Store, store': Store, to: Ref)
    requires Halfway(env, store, store', to) && to.s < |store| && to.o == |store[to.s].options|
    ensures Halfway(env, store, store', Ref(to.s + 1, 0))
  {
  }
}
