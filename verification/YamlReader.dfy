/** The reader of module ConfigYaml as the source runs it: loops over a token parser, updating the configuration. */
module YamlReader {
  import opened Prelude
  import opened ConfigStore
  import opened ConfigYaml

  /** libyaml's parser as a source of tokens; a scan past the end yields no token, for ever. */
  class YamlParser {
    var rest: seq<Token>

    constructor (tokens: seq<Token>)
      ensures rest == tokens
    {
      rest := tokens;
    }

    method Scan() returns (token: Token)
      modifies this
      ensures token == Head(old(rest)) && rest == Tail(old(rest))
    {
      token := Head(rest);
      rest := Tail(rest);
    }
  }

  method YamlParseInit(parser: YamlParser) returns (ok: bool)
    modifies parser
    ensures (ok, parser.rest) == ReadInit(old(parser.rest))
  {
    var token := parser.Scan();
    if token != StreamStart {
      return false;
    }
    token := parser.Scan();
    if token != DocumentStart {
      return false;
    }
    token := parser.Scan();
    ok := token == BlockMappingStart;
  }

  method SetValueFromScalar(conf: RappConfig, r: Ref, text: string) returns (ok: bool)
    requires conf.Valid() && InStore(conf.sections, r)
    modifies conf
    ensures conf.Valid() && ok == SetsScalar(old(conf.sections), r, text)
    ensures conf.sections == SetScalar(old(conf.sections), r, text)
  {
    if At(conf.sections, r).noOverride {
      return true;
    }
    ok := conf.AddValueFromString(r, text);
  }

  /** What two runs over list items have in common: their answer, the store and the tokens left. */
  ghost predicate SameEnd(a: (bool, Store, seq<Token>, seq<string>), b: (bool, Store, seq<Token>, seq<string>)) {
    a.0 == b.0 && a.1 == b.1 && a.2 == b.2
  }

  method SetValueFromList(conf: RappConfig, r: Ref, parser: YamlParser) returns (ok: bool)
    requires conf.Valid() && InStore(conf.sections, r)
    modifies conf, parser
    ensures conf.Valid()
    ensures if At(old(conf.sections), r).multivalued == 0
            then !ok && conf.sections == old(conf.sections) && parser.rest == old(parser.rest)
            else SameEnd((ok, conf.sections, parser.rest, []), ReadItems(old(conf.sections), r, old(parser.rest)))
  {
    hide SetScalar, SetsScalar, SoundStore;
    if At(conf.sections, r).multivalued == 0 {
      return false;
    }
    ghost var ts := parser.rest;
    var token := parser.Scan();
    while token.BlockEntry? || token.Scalar? || token.FlowEntry?
      invariant conf.Valid() && InStore(conf.sections, r)
      invariant token == Head(ts) && parser.rest == Tail(ts)
      invariant SameEnd(ReadItems(conf.sections, r, ts), ReadItems(old(conf.sections), r, old(parser.rest)))
      decreases |ts|
    {
      if !token.Scalar? {
        token := parser.Scan();
        if !token.Scalar? {
          return false;
        }
      }
      ScalarKeeps(conf.sections, r, token.text);
      var stored := SetValueFromScalar(conf, r, token.text);
      if !stored {
        return false;
      }
      ts := parser.rest;
      token := parser.Scan();
    }
    ok := token.BlockEnd? || token.FlowSequenceEnd?;
  }

  method YamlParseKeyValue(conf: RappConfig, s: nat, parser: YamlParser) returns (ok: bool, last: bool)
    requires conf.Valid() && s < |conf.sections|
    modifies conf, parser
    ensures conf.Valid() && parser.rest == ReadEntry(old(conf.sections), s, old(parser.rest)).rest
    ensures conf.sections == ReadEntry(old(conf.sections), s, old(parser.rest)).store
    ensures ok == ReadEntry(old(conf.sections), s, old(parser.rest)).ok
    ensures last == ReadEntry(old(conf.sections), s, old(parser.rest)).last
  {
    hide SetScalar, SetsScalar, SoundStore, ReadItems;
    var token := parser.Scan();
    ok, last := false, false;
    if !token.Key? && !token.FlowEntry? {
      if token.BlockEnd? || token.FlowMappingEnd? {
        last := true;
      }
      return;
    }
    if token.FlowEntry? {
      token := parser.Scan();
      if !token.Key? {
        return;
      }
    }
    token := parser.Scan();
    if !token.Scalar? {
      return;
    }
    var r := conf.GetOptionFromSection(s, token.text);
    if r == None {
      return;
    }
    token := parser.Scan();
    if !token.ValueMark? {
      return;
    }
    token := parser.Scan();
    if !token.Scalar? && !token.BlockSequenceStart? && !token.FlowSequenceStart? {
      return;
    }
    ScalarKeeps(conf.sections, r.value, "");
    if !At(conf.sections, r.value).noOverride {
      conf.RemoveAllValues(r.value);
    }
    if token.BlockSequenceStart? || token.FlowSequenceStart? {
      ok := SetValueFromList(conf, r.value, parser);
    } else {
      ok := SetValueFromScalar(conf, r.value, token.text);
    }
  }

  /** Scans up to the first block end; the source has no other way out, so one must be there. */
  method YamlSkipSection(parser: YamlParser)
    requires SkipBlock(parser.rest).Some?
    modifies parser
    ensures parser.rest == SkipBlock(old(parser.rest)).value
  {
    var token := parser.Scan();
    while !token.BlockEnd?
      invariant if token.BlockEnd? then parser.rest == SkipBlock(old(parser.rest)).value
                else SkipBlock(parser.rest) == SkipBlock(old(parser.rest))
      decreases |parser.rest|, !token.BlockEnd?
    {
      token := parser.Scan();
    }
  }

  method YamlParseSection(conf: RappConfig, name: string, parser: YamlParser) returns (ok: bool)
    requires conf.Valid() && ReadSection(conf.sections, name, parser.rest).Returns?
    modifies conf, parser
    ensures conf.Valid()
    ensures var x := ReadSection(old(conf.sections), name, old(parser.rest)).r;
      ok == x.ok && conf.sections == x.store && parser.rest == x.rest
  {
    hide ReadEntry, SoundStore;
    var s := conf.SectionGet(name);
    if s == None {
      YamlSkipSection(parser);
      return true;
    }
    var token := parser.Scan();
    if !token.ValueMark? {
      return false;
    }
    token := parser.Scan();
    if !token.BlockMappingStart? && !token.FlowMappingStart? {
      return false;
    }
    ghost var target := ReadEntries(conf.sections, s.value, parser.rest);
    ok := true;
    var more := true;
    while more
      invariant conf.Valid() && s.value < |conf.sections|
      invariant if more then ok && Onwards(ReadEntries(conf.sections, s.value, parser.rest), target)
                else Onwards(Reading(ok, false, conf.sections, parser.rest, []), target)
      decreases more, |parser.rest|
    {
      EntryKeeps(conf.sections, s.value, parser.rest);
      var read, last := YamlParseKeyValue(conf, s.value, parser);
      if !read {
        more := false;
        ok := last;
      }
    }
  }

  /** The same answer, store and tokens left. */
  ghost predicate Onwards(a: Reading, b: Reading) {
    a.ok == b.ok && a.store == b.store && a.rest == b.rest
  }

  method ConfigParseMain(conf: RappConfig, parser: YamlParser) returns (ok: bool)
    requires conf.Valid() && ReadDocument(conf.sections, parser.rest).Returns?
    modifies conf, parser
    ensures conf.Valid()
    ensures Onwards(Reading(ok, false, conf.sections, parser.rest, []), ReadDocument(old(conf.sections), old(parser.rest)).r)
  {
    hide ReadSection, SoundStore;
    ok := YamlParseInit(parser);
    if !ok {
      return;
    }
    ghost var target := ReadSections(conf.sections, parser.rest).r;
    var more := true;
    while more
      invariant conf.Valid()
      invariant if more then ok && ReadSections(conf.sections, parser.rest).Returns?
                             && Onwards(ReadSections(conf.sections, parser.rest).r, target)
                else Onwards(Reading(ok, false, conf.sections, parser.rest, []), target)
      decreases more, |parser.rest|
    {
      var token := parser.Scan();
      if token.BlockEnd? {
        more := false;
      } else if !token.Key? {
        more, ok := false, false;
      } else {
        token := parser.Scan();
        if !token.Scalar? {
          more, ok := false, false;
        } else {
          ok := YamlParseSection(conf, token.text, parser);
          more := ok;
        }
      }
    }
  }
}
