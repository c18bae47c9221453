/**
  The configuration store (src/config/common.h, src/config/common.c, src/config/api.c): sections hold options,
  options hold lists of values.  An option is addressed by its position, which never changes once it is added.
 */
module ConfigStore {
  import opened Prelude

  const LONG_MIN := -0x8000_0000_0000_0000
  const LONG_MAX := 0x7FFF_FFFF_FFFF_FFFF
  const CORE := "core"

  datatype ParamType = ParamBool | ParamInt | ParamString

  /** The union of src/config/common.h. */
  datatype Value = IntValue(n: int) | StrValue(s: string)

  datatype ConfigOption = ConfigOption(
    kind: ParamType,
    name: string,
    help: Option<string>,
    metavar: Option<string>,
    rangeSet: bool,
    valueMin: int,
    valueMax: int,
    multivalued: int,
    values: seq<Value>,
    numValues: int,
    defaultValue: Option<Value>,
    defaultSet: bool,
    noOverride: bool
  ) {
    /** Command line and environment lock an option; the lock is never taken off. */
    predicate Locked() { noOverride }

    /** The counter counts the list, values have the option's type, and an option without a range takes any long. */
    ghost predicate Sound() {
      && numValues == |values|
      && (forall i :: 0 <= i < |values| ==> if kind.ParamString? then values[i].StrValue? else values[i].IntValue?)
      && (kind.ParamInt? && !rangeSet ==> valueMin == LONG_MIN && valueMax == LONG_MAX)
      && (kind.ParamBool? ==> rangeSet && valueMin == 0 && valueMax == 1)
    }

    predicate InRange(v: int) { valueMin <= v <= valueMax }

    /** A further value fits: the list is empty or may hold several. */
    predicate HasRoom() { multivalued != 0 || numValues <= 0 }

    predicate AcceptsInt(v: int) {
      !kind.ParamString? && HasRoom() && (rangeSet ==> InRange(v))
    }

    predicate AcceptsString() { kind.ParamString? && HasRoom() }

    function Append(v: Value): ConfigOption {
      this.(values := values + [v], numValues := numValues + 1)
    }

    function AddInt(v: int): ConfigOption {
      if AcceptsInt(v) then Append(IntValue(v)) else this
    }

    function AddString(s: string): ConfigOption {
      if AcceptsString() then Append(StrValue(s)) else this
    }

    /** Whether config_add_value_from_string reports success; it does not report a value that was dropped. */
    predicate Readable(text: string) {
      match kind
      case ParamString => true
      case ParamBool => BoolText(text)
      case ParamInt => ReadLong(text).Some? && InRange(ReadLong(text).value)
    }

    function AddText(text: string): ConfigOption {
      if !Readable(text) then this else
        match kind
        case ParamString => AddString(text)
        case ParamBool => AddInt(BOOL_TEXT_VALUE)
        case ParamInt => AddInt(ReadLong(text).value)
    }

    function Cleared(): ConfigOption {
      this.(values := [], numValues := numValues - |values|)
    }

    /** Ranges are for integer options, and need a minimum below the maximum. */
    predicate TakesRange(min: int, max: int) { kind.ParamInt? && min < max }

    function SetRange(min: int, max: int): ConfigOption {
      if TakesRange(min, max) then this.(valueMin := min, valueMax := max, rangeSet := true) else this
    }

    /** The value at a position, or the default at position 0 of an option without values. */
    function Nth(position: int): Option<Value> {
      if position < 0 || (multivalued == 0 && position != 0) then None
      else if numValues == 0 && defaultSet then (if position == 0 then defaultValue else None)
      else if position >= numValues || position >= |values| then None
      else Some(values[position])
    }
  }

  /**
    What reading an option at a position should answer: its value there, if it may have several or the position is
    the first; without values its default, at position 0 only; and nothing in every other case.
   */
  ghost predicate ReadsAt(o: ConfigOption, position: int, answer: Option<Value>) {
    if o.values == [] then answer == if position == 0 && o.defaultSet then o.defaultValue else None
    else answer == if 0 <= position < |o.values| && (o.multivalued != 0 || position == 0) then Some(o.values[position]) else None
  }

  lemma NthReadsAt(o: ConfigOption, position: int)
    requires o.numValues == |o.values|
    ensures ReadsAt(o, position, o.Nth(position))
  {
  }

  /** The text of an integer value as strtol reads it to its very end, if it is within a long. */
  function ReadLong(text: string): Option<int> {
    if text == "" then Some(0) else
      var t := SkipSpaces(text);
      var digits := if t != "" && (t[0] == '-' || t[0] == '+') then t[1..] else t;
      if digits == "" || !AllDigits(digits) then None
      else
        var magnitude: int := DigitsValue(digits);
        var n := if t[0] == '-' then -magnitude else magnitude;
        if LONG_MIN <= n <= LONG_MAX then Some(n) else None
  }

  function SkipSpaces(text: string): string {
    if text != "" && (text[0] == ' ' || '\t' <= text[0] <= '\r') then SkipSpaces(text[1..]) else text
  }

  predicate AllDigits(s: string) {
    forall i :: 0 <= i < |s| ==> '0' <= s[i] <= '9'
  }

  function DigitsValue(digits: string): nat
    requires AllDigits(digits)
  {
    if digits == "" then 0 else 10 * DigitsValue(digits[..|digits| - 1]) + (digits[|digits| - 1] - '0') as nat
  }

  predicate Contains(text: string, part: string) {
    part <= text || (text != "" && Contains(text[1..], part))
  }

  /** The words of the boolean expression but the first and the last. */
  const INNER_WORDS: seq<string> :=
    ["Yes", "YES", "no", "No", "NO", "true", "True", "TRUE", "false", "False", "FALSE",
     "on", "On", "ON", "off", "Off", "OFF", "1"]

  /**
    The alternation of the boolean expression: only its first word is anchored at the start and only its last
    at the end.
   */
  predicate BoolText(text: string) {
    || "yes" <= text
    || (exists w | w in INNER_WORDS :: Contains(text, w))
    || (text != "" && text[|text| - 1] == '0')
  }

  /** The value stored for any boolean text: whether the second expression compiles, which it does. */
  const BOOL_TEXT_VALUE := 1

  datatype Section = Section(name: string, numOpts: int, options: seq<ConfigOption>)

  type Store = seq<Section>

  /** Where an option is: the index of its section and its index there. */
  datatype Ref = Ref(s: nat, o: nat)

  predicate InStore(store: Store, r: Ref) {
    r.s < |store| && r.o < |store[r.s].options|
  }

  function At(store: Store, r: Ref): ConfigOption
    requires InStore(store, r)
  {
    store[r.s].options[r.o]
  }

  /** The store with one option replaced. */
  function With(store: Store, r: Ref, o: ConfigOption): (store': Store)
    requires InStore(store, r)
    ensures |store'| == |store|
    ensures forall q :: InStore(store', q) <==> InStore(store, q)
    ensures forall q :: InStore(store, q) ==> At(store', q) == if q == r then o else At(store, q)
    ensures forall i :: 0 <= i < |store| ==> store'[i].name == store[i].name && store'[i].numOpts == store[i].numOpts
  {
    store[r.s := store[r.s].(options := store[r.s].options[r.o := o])]
  }

  /** The first section of that name. */
  function FindSection(store: Store, name: string): (r: Option<nat>)
    ensures r.Some? ==> r.value < |store| && store[r.value].name == name
    ensures r.Some? ==> forall i :: 0 <= i < r.value ==> store[i].name != name
    ensures r == None ==> forall i :: 0 <= i < |store| ==> store[i].name != name
  {
    if store == [] then None
    else if store[0].name == name then Some(0)
    else match FindSection(store[1..], name)
      case None => None
      case Some(i) => Some(i + 1)
  }

  /** The first option of that name. */
  function FindIn(options: seq<ConfigOption>, name: string): (r: Option<nat>)
    ensures r.Some? ==> r.value < |options| && options[r.value].name == name
    ensures r.Some? ==> forall i :: 0 <= i < r.value ==> options[i].name != name
    ensures r == None ==> forall i :: 0 <= i < |options| ==> options[i].name != name
  {
    if options == [] then None
    else if options[0].name == name then Some(0)
    else match FindIn(options[1..], name)
      case None => None
      case Some(i) => Some(i + 1)
  }

  /** The first option of that name in the first section of that name. */
  function Find(store: Store, section: string, name: string): (r: Option<Ref>)
    ensures r.Some? ==> InStore(store, r.value) && At(store, r.value).name == name && store[r.value.s].name == section
    ensures r.Some? ==> forall q :: InStore(store, q) && store[q.s].name == section && At(store, q).name == name ==>
      r.value.s < q.s || (r.value.s == q.s && r.value.o <= q.o)
    ensures r == None ==> forall q :: InStore(store, q) && store[q.s].name == section && At(store, q).name == name ==>
      exists s :: 0 <= s < q.s && store[s].name == section
  {
    match FindSection(store, section)
    case None => None
    case Some(i) =>
      match FindIn(store[i].options, name)
      case None => None
      case Some(j) => Some(Ref(i, j))
  }

  predicate IsLower(c: char) { 'a' <= c <= 'z' }

  /** At least two characters, lower case, with underscores inside. */
  predicate ValidName(name: string) {
    && |name| >= 2 && IsLower(name[0]) && IsLower(name[|name| - 1])
    && forall i :: 0 <= i < |name| ==> IsLower(name[i]) || name[i] == '_'
  }

  ghost predicate IsWord(name: string, first: char, middle: string, last: char) {
    && name == [first] + (middle + [last]) && 'a' <= first <= 'z' && 'a' <= last <= 'z'
    && forall i :: 0 <= i < |middle| ==> 'a' <= middle[i] <= 'z' || middle[i] == '_'
  }

  /** The expression of validate_name: a lower case letter, lower case letters or underscores, a lower case letter. */
  lemma ValidNameExactly(name: string)
    ensures ValidName(name) <==> exists first: char, middle: string, last: char :: IsWord(name, first, middle, last)
  {
    if ValidName(name) {
      var n := |name|;
      assert IsWord(name, name[0], name[1..n - 1], name[n - 1]);
    }
    if first: char, middle: string, last: char :| IsWord(name, first, middle, last) {
      WordIsValid(name, first, middle, last);
    }
  }

  lemma WordIsValid(name: string, first: char, middle: string, last: char)
    requires IsWord(name, first, middle, last)
    ensures ValidName(name)
  {
    forall i | 0 <= i < |name| ensures IsLower(name[i]) || name[i] == '_' {
      assert name[i] == if i == 0 then first else if i <= |middle| then middle[i - 1] else last;
    }
  }

  /** Counters count, names are valid, sections are distinct, options are sound. */
  ghost predicate SoundStore(store: Store) {
    && (forall i :: 0 <= i < |store| ==> store[i].numOpts == |store[i].options| && ValidName(store[i].name))
    && (forall i, j :: 0 <= i < j < |store| ==> store[i].name != store[j].name)
    && (forall r :: InStore(store, r) ==> At(store, r).Sound() && ValidName(At(store, r).name))
  }

  /** A newly added option: opt_setup_values on zeroed memory. */
  function NewOption(name: string, kind: ParamType, help: Option<string>, metavar: Option<string>): (o: ConfigOption)
    ensures o.Sound() && o.values == [] && !o.Locked() && !o.defaultSet && o.multivalued == 0
    ensures o.kind == kind && o.name == name && o.help == help && (if kind.ParamBool? then o.metavar == None else o.metavar == metavar)
  {
    ConfigOption(kind, name, help, if kind.ParamBool? then None else metavar,
                 kind.ParamBool?,
                 if kind.ParamInt? then LONG_MIN else 0,
                 match kind case ParamBool => 1 case ParamInt => LONG_MAX case ParamString => 0,
                 0, [], 0, if kind.ParamString? then None else Some(IntValue(0)), false, false)
  }

  /** The store after rapp_config_opt_add of a valid name in a valid section. */
  function Added(store: Store, section: string, o: ConfigOption): Store {
    match FindSection(store, section)
    case None => store + [Section(section, 1, [o])]
    case Some(i) => store[i := store[i].(options := store[i].options + [o], numOpts := store[i].numOpts + 1)]
  }

  ghost predicate IsNew(o: ConfigOption, name: string, kind: ParamType, help: Option<string>, metavar: Option<string>) {
    && o.kind == kind && o.name == name && o.help == help && o.values == [] && o.numValues == 0
    && o.metavar == (if kind.ParamBool? then None else metavar) && o.multivalued == 0 && !o.defaultSet && !o.noOverride
    && (kind.ParamBool? ==> o.rangeSet && o.valueMin == 0 && o.valueMax == 1)
    && (kind.ParamInt? ==> !o.rangeSet && o.valueMin == LONG_MIN && o.valueMax == LONG_MAX)
  }

  /** Where an added option is: at the end of the first section of that name, or in a new section at the end. */
  ghost predicate IsAdded(store: Store, store': Store, section: string, o: ConfigOption, r: Ref) {
    && InStore(store', r) && !InStore(store, r) && At(store', r) == o && store'[r.s].name == section
    && (forall q :: InStore(store, q) ==> InStore(store', q) && At(store', q) == At(store, q))
    && (forall q :: InStore(store', q) ==> InStore(store, q) || q == r)
    && (forall i :: 0 <= i < |store| ==> i < |store'| && store'[i].name == store[i].name)
    && (forall i :: 0 <= i < r.s ==> store'[i].name != section)
    && |store'| == (if r.s < |store| then |store| else |store| + 1)
  }

  lemma AddedDoes(store: Store, section: string, o: ConfigOption) returns (r: Ref)
    ensures IsAdded(store, Added(store, section, o), section, o, r)
  {
    r := match FindSection(store, section) case None => Ref(|store|, 0) case Some(i) => Ref(i, |store[i].options|);
  }

  lemma AddedIsSound(store: Store, section: string, o: ConfigOption)
    requires SoundStore(store) && ValidName(section) && ValidName(o.name) && o.Sound()
    ensures SoundStore(Added(store, section, o))
  {
    var store' := Added(store, section, o);
    forall r | InStore(store', r) ensures At(store', r).Sound() && ValidName(At(store', r).name) {
      if InStore(store, r) {
        assert At(store', r) == At(store, r);
      } else {
        assert At(store', r) == o;
      }
    }
  }

  lemma WithItself(store: Store, r: Ref)
    requires InStore(store, r)
    ensures With(store, r, At(store, r)) == store
  {
    var section := store[r.s];
    assert section.options[r.o := section.options[r.o]] == section.options;
    assert store[r.s := section] == store;
  }

  lemma WithIsSound(store: Store, r: Ref, o: ConfigOption)
    requires SoundStore(store) && InStore(store, r) && o.Sound() && o.name == At(store, r).name
    ensures SoundStore(With(store, r, o))
  {
    var store' := With(store, r, o);
    assert forall q :: InStore(store', q) ==> At(store', q).Sound() && ValidName(At(store', q).name);
  }

  lemma OptionIsSound(store: Store, r: Ref)
    requires SoundStore(store) && InStore(store, r)
    ensures At(store, r).Sound()
  {
  }

  lemma AddTextIsSound(o: ConfigOption, text: string)
    requires o.Sound()
    ensures o.AddText(text).Sound() && o.Cleared().Sound() && o.Cleared().numValues == 0
  {
  }

  // ----------------------------------------------------------------------------------------------
  // Every sequence of operations on one option
  // ----------------------------------------------------------------------------------------------

  datatype Call =
    | CallAddInt(v: int)
    | CallAddString(s: string)
    | CallAddText(text: string)
    | CallClear
    | CallSetRange(min: int, max: int)
    | CallSetMultivalued(flag: int)
    | CallSetDefault(value: Value)
    | CallLock

  function Called(o: ConfigOption, c: Call): ConfigOption {
    match c
    case CallAddInt(v) => o.AddInt(v)
    case CallAddString(s) => o.AddString(s)
    case CallAddText(text) => o.AddText(text)
    case CallClear => o.Cleared()
    case CallSetRange(min, max) => o.SetRange(min, max)
    case CallSetMultivalued(flag) => o.(multivalued := flag)
    case CallSetDefault(value) => o.(defaultValue := Some(value), defaultSet := true)
    case CallLock => o.(noOverride := true)
  }

  function After(o: ConfigOption, calls: seq<Call>): ConfigOption {
    if calls == [] then o else Called(After(o, calls[..|calls| - 1]), calls[|calls| - 1])
  }

  /** For each value an option holds, the call that stored it. */
  ghost function Origins(o: ConfigOption, calls: seq<Call>): seq<nat> {
    if calls == [] then [] else
      var n := |calls| - 1;
      var before, after := After(o, calls[..n]), After(o, calls);
      if calls[n].CallClear? then []
      else if |after.values| > |before.values| then Origins(o, calls[..n]) + [n]
      else Origins(o, calls[..n])
  }

  /** The call stores v in an option that, as it is, accepts v. */
  ghost predicate Stores(o: ConfigOption, c: Call, v: Value) {
    match v
    case IntValue(n) =>
      o.AcceptsInt(n) && o.InRange(n) && (c == CallAddInt(n) || (c.CallAddText? && o.Readable(c.text)))
    case StrValue(s) =>
      o.AcceptsString() && (c == CallAddString(s) || c == CallAddText(s))
  }

  ghost predicate StoredBy(o: ConfigOption, calls: seq<Call>, i: int, v: Value) {
    0 <= i < |calls| && Stores(After(o, calls[..i]), calls[i], v)
  }

  predicate IsLong(c: Call) {
    c.CallAddInt? ==> LONG_MIN <= c.v <= LONG_MAX
  }

  /**
    Over every sequence of operations on a new option: the counter counts the values, each value was put there
    by a call that was in order, and each integer was inside the range in force when it was accepted.
   */
  lemma {:induction false} ValuesHaveOrigins(o: ConfigOption, calls: seq<Call>)
    requires o.Sound() && o.values == [] && forall i :: 0 <= i < |calls| ==> IsLong(calls[i])
    ensures After(o, calls).Sound()
    ensures var r := Origins(o, calls);
      && |r| == |After(o, calls).values|
      && (forall k :: 0 <= k < |r| ==> StoredBy(o, calls, r[k], After(o, calls).values[k]))
      && (forall k, l :: 0 <= k < l < |r| ==> r[k] < r[l])
  {
    hide Called, Stores, ConfigOption.Sound, IsLong;
    if calls != [] {
      var n := |calls| - 1;
      var before := calls[..n];
      ValuesHaveOrigins(o, before);
      CallKeepsSound(After(o, before), calls[n]);
      CallStores(After(o, before), calls[n]);
      var r, r' := Origins(o, before), Origins(o, calls);
      forall k | 0 <= k < |r'| ensures StoredBy(o, calls, r'[k], After(o, calls).values[k]) {
        if k < |r| {
          assert StoredBy(o, before, r[k], After(o, before).values[k]);
          assert before[..r[k]] == calls[..r[k]];
        }
      }
    }
  }

  /** A call clears the values, or keeps those there are and stores at most one more. */
  lemma CallStores(o: ConfigOption, c: Call)
    requires o.Sound() && IsLong(c)
    ensures var vs := Called(o, c).values;
      if c.CallClear? then vs == [] else
      vs == o.values || (|vs| == |o.values| + 1 && vs[..|o.values|] == o.values && Stores(o, c, vs[|o.values|]))
  {
  }

  lemma CallKeepsSound(o: ConfigOption, c: Call)
    requires o.Sound() && IsLong(c)
    ensures Called(o, c).Sound()
  {
  }

  /** An option that is never made multivalued never holds more than one value. */
  lemma {:induction false} SingleStaysSingle(o: ConfigOption, calls: seq<Call>)
    requires o.Sound() && o.values == [] && o.multivalued == 0
    requires forall i :: 0 <= i < |calls| ==> IsLong(calls[i]) && (calls[i].CallSetMultivalued? ==> calls[i].flag == 0)
    ensures After(o, calls).Sound() && After(o, calls).multivalued == 0 && |After(o, calls).values| <= 1
  {
    hide Called, ConfigOption.Sound, IsLong;
    if calls != [] {
      SingleStaysSingle(o, calls[..|calls| - 1]);
      CallKeepsSound(After(o, calls[..|calls| - 1]), calls[|calls| - 1]);
      CallKeepsSingle(After(o, calls[..|calls| - 1]), calls[|calls| - 1]);
    }
  }

  lemma CallKeepsSingle(o: ConfigOption, c: Call)
    requires o.Sound() && o.multivalued == 0 && |o.values| <= 1 && (c.CallSetMultivalued? ==> c.flag == 0)
    ensures Called(o, c).multivalued == 0 && |Called(o, c).values| <= 1
  {
    hide ConfigOption.InRange, ReadLong, BoolText;
  }

  // ----------------------------------------------------------------------------------------------
  // The configuration object
  // ----------------------------------------------------------------------------------------------

  class RappConfig {
    var sections: Store

    ghost predicate Valid()
      reads this
    {
      SoundStore(sections)
    }

    constructor ()
      ensures Valid() && sections == []
    {
      sections := [];
    }

    method SectionGet(name: string) returns (r: Option<nat>)
      ensures r == FindSection(sections, name)
    {
      var i := 0;
      while i < |sections|
        invariant i <= |sections| && forall j :: 0 <= j < i ==> sections[j].name != name
      {
        if sections[i].name == name {
          return Some(i);
        }
        i := i + 1;
      }
      return None;
    }

    /** The lookup macro inside one section. */
    method GetOptionFromSection(s: nat, name: string) returns (r: Option<Ref>)
      requires s < |sections|
      ensures r == match FindIn(sections[s].options, name) case None => None case Some(o) => Some(Ref(s, o))
    {
      var i := 0;
      var options := sections[s].options;
      while i < |options|
        invariant i <= |options| && forall j :: 0 <= j < i ==> options[j].name != name
      {
        if options[i].name == name {
          return Some(Ref(s, i));
        }
        i := i + 1;
      }
      return None;
    }

    method GetOption(section: string, name: string) returns (r: Option<Ref>)
      ensures r == Find(sections, section, name)
    {
      var s := SectionGet(section);
      if s == None {
        return None;
      }
      r := GetOptionFromSection(s.value, name);
    }

    /** The addressed option becomes o. */
    method Put(r: Ref, o: ConfigOption)
      requires Valid() && InStore(sections, r) && o.Sound() && o.name == At(sections, r).name
      modifies this
      ensures Valid() && sections == With(old(sections), r, o)
    {
      WithIsSound(sections, r, o);
      sections := With(sections, r, o);
    }

    /** Fails exactly for an invalid name; otherwise one option more at the end of its section. */
    method OptAdd(section: string, name: string, kind: ParamType, help: Option<string>, metavar: Option<string>) returns (ok: bool)
      requires Valid()
      modifies this
      ensures Valid() && (ok <==> ValidName(name) && ValidName(section))
      ensures sections == if ok then Added(old(sections), section, NewOption(name, kind, help, metavar)) else old(sections)
      ensures ok ==> exists r, o :: IsAdded(old(sections), sections, section, o, r) && IsNew(o, name, kind, help, metavar)
    {
      if !ValidName(name) || !ValidName(section) {
        return false;
      }
      ok := true;
      var o := NewOption(name, kind, help, metavar);
      AddedIsSound(sections, section, o);
      var s := SectionGet(section);
      var i;
      if s == None {
        sections := sections + [Section(section, 0, [])];
        i := |sections| - 1;
      } else {
        i := s.value;
      }
      var sect := sections[i];
      assert s == None ==> sect.options + [o] == [o];
      sections := sections[i := sect.(options := sect.options + [o], numOpts := sect.numOpts + 1)];
      assert sections == Added(old(sections), section, o);
      var r := AddedDoes(old(sections), section, o);
      assert IsAdded(old(sections), sections, section, o, r);
    }

    method OptAddValueInt(r: Ref, v: int) returns (ok: bool)
      requires Valid() && InStore(sections, r) && LONG_MIN <= v <= LONG_MAX
      modifies this
      ensures Valid() && ok == At(old(sections), r).AcceptsInt(v)
      ensures sections == With(old(sections), r, At(old(sections), r).AddInt(v))
      ensures var o, o' := At(old(sections), r), At(sections, r);
        && (ok <==> !o.kind.ParamString? && (o.multivalued != 0 || o.values == []) && (o.rangeSet ==> o.valueMin <= v <= o.valueMax))
        && o' == if ok then o.(values := o.values + [IntValue(v)], numValues := o.numValues + 1) else o
    {
      var opt := At(sections, r);
      ok := false;
      if opt.kind != ParamBool && opt.kind != ParamInt {
      } else if opt.multivalued == 0 && opt.numValues > 0 {
      } else if opt.rangeSet && (opt.valueMin > v || opt.valueMax < v) {
      } else {
        ok := true;
        opt := opt.(numValues := opt.numValues + 1);
        opt := opt.(values := opt.values + [IntValue(v)]);
      }
      Put(r, opt);
    }

    method OptAddValueString(r: Ref, s: string) returns (ok: bool)
      requires Valid() && InStore(sections, r)
      modifies this
      ensures Valid() && ok == At(old(sections), r).AcceptsString()
      ensures sections == With(old(sections), r, At(old(sections), r).AddString(s))
      ensures var o, o' := At(old(sections), r), At(sections, r);
        && (ok <==> o.kind.ParamString? && (o.multivalued != 0 || o.values == []))
        && o' == if ok then o.(values := o.values + [StrValue(s)], numValues := o.numValues + 1) else o
    {
      var opt := At(sections, r);
      ok := false;
      if opt.multivalued == 0 && opt.numValues > 0 {
      } else if opt.kind != ParamString {
      } else {
        ok := true;
        opt := opt.(numValues := opt.numValues + 1);
        opt := opt.(values := opt.values + [StrValue(s)]);
      }
      Put(r, opt);
    }

    /** Reports unreadable text only; a readable value that the option does not take is dropped in silence. */
    method AddValueFromString(r: Ref, text: string) returns (ok: bool)
      requires Valid() && InStore(sections, r)
      modifies this
      ensures Valid() && ok == At(old(sections), r).Readable(text)
      ensures sections == With(old(sections), r, At(old(sections), r).AddText(text))
      ensures var o, o' := At(old(sections), r), At(sections, r); var room := o.multivalued != 0 || o.values == [];
        match o.kind
        case ParamString => ok && o'.values == if room then o.values + [StrValue(text)] else o.values
        case ParamBool => ok == BoolText(text) && o'.values == if ok && room then o.values + [IntValue(1)] else o.values
        case ParamInt =>
          && (ok <==> ReadLong(text).Some? && o.valueMin <= ReadLong(text).value <= o.valueMax)
          && o'.values == if ok && room then o.values + [IntValue(ReadLong(text).value)] else o.values
    {
      hide SoundStore, BoolText;
      OptionIsSound(sections, r);
      var opt := At(sections, r);
      ok := true;
      match opt.kind {
        case ParamString =>
          var _ := OptAddValueString(r, text);
        case ParamBool =>
          if BoolText(text) {
            var _ := OptAddValueInt(r, BOOL_TEXT_VALUE);
          } else {
            ok := false;
          }
        case ParamInt =>
          var v := ReadLong(text);
          if v == None || v.value < opt.valueMin || v.value > opt.valueMax {
            ok := false;
          } else {
            ReadLongIsLong(text);
            var _ := OptAddValueInt(r, v.value);
          }
      }
      WithItself(old(sections), r);
    }

    method RemoveAllValues(r: Ref)
      requires Valid() && InStore(sections, r)
      modifies this
      ensures Valid() && sections == With(old(sections), r, At(old(sections), r).Cleared())
      ensures At(sections, r) == At(old(sections), r).(values := [], numValues := 0)
    {
      var opt := At(sections, r);
      assert opt.Sound();
      ghost var n := opt.numValues - |opt.values|;
      while opt.values != []
        invariant opt == At(sections, r).(values := opt.values, numValues := n + |opt.values|)
        decreases |opt.values|
      {
        opt := opt.(values := opt.values[1..], numValues := opt.numValues - 1);
      }
      Put(r, opt);
    }

    method Lock(r: Ref)
      requires Valid() && InStore(sections, r)
      modifies this
      ensures Valid() && sections == With(old(sections), r, At(old(sections), r).(noOverride := true))
    {
      assert At(sections, r).Sound();
      Put(r, At(sections, r).(noOverride := true));
    }

    method SetRangeInt(section: string, name: string, min: int, max: int) returns (ok: bool)
      requires Valid()
      modifies this
      ensures Valid()
      ensures var r := Find(old(sections), section, name);
        && (ok <==> r.Some? && At(old(sections), r.value).TakesRange(min, max))
        && sections == if ok then With(old(sections), r.value, At(old(sections), r.value).SetRange(min, max)) else old(sections)
      ensures var r := Find(old(sections), section, name);
        && (ok <==> r.Some? && At(old(sections), r.value).kind.ParamInt? && min < max)
        && (ok ==> At(sections, r.value) == At(old(sections), r.value).(valueMin := min, valueMax := max, rangeSet := true))
    {
      var r := GetOption(section, name);
      if r == None || At(sections, r.value).kind != ParamInt || min >= max {
        return false;
      }
      ok := true;
      assert At(sections, r.value).Sound();
      Put(r.value, At(sections, r.value).(valueMin := min, valueMax := max, rangeSet := true));
    }

    method SetMultivalued(section: string, name: string, flag: int) returns (ok: bool)
      requires Valid()
      modifies this
      ensures Valid()
      ensures var r := Find(old(sections), section, name);
        && (ok <==> r.Some?)
        && sections == if ok then With(old(sections), r.value, At(old(sections), r.value).(multivalued := flag)) else old(sections)
    {
      var r := GetOption(section, name);
      if r == None {
        return false;
      }
      ok := true;
      assert At(sections, r.value).Sound();
      Put(r.value, At(sections, r.value).(multivalued := flag));
    }

    method SetDefault(section: string, name: string, value: Value) returns (ok: bool)
      requires Valid()
      modifies this
      ensures Valid()
      ensures var r := Find(old(sections), section, name);
        && (ok <==> r.Some?)
        && sections == if ok then With(old(sections), r.value, At(old(sections), r.value).(defaultValue := Some(value), defaultSet := true))
                       else old(sections)
    {
      var r := GetOption(section, name);
      if r == None {
        return false;
      }
      ok := true;
      assert At(sections, r.value).Sound();
      Put(r.value, At(sections, r.value).(defaultValue := Some(value), defaultSet := true));
    }

    /** The getters of both types: `wantString` tells which, and must fit the option's type. */
    method GetNth(section: string, name: string, position: int, wantString: bool) returns (value: Option<Value>)
      requires Valid()
      ensures var r := Find(sections, section, name);
        value == if r.Some? && At(sections, r.value).kind.ParamString? == wantString then At(sections, r.value).Nth(position) else None
      ensures var r := Find(sections, section, name);
        if r == None || At(sections, r.value).kind.ParamString? != wantString then value == None
        else ReadsAt(At(sections, r.value), position, value)
    {
      if position < 0 {
        return None;
      }
      var r := GetOption(section, name);
      if r == None {
        return None;
      }
      var opt := At(sections, r.value);
      assert opt.Sound();
      NthReadsAt(opt, position);
      if opt.kind.ParamString? != wantString || (opt.multivalued == 0 && position != 0) {
        return None;
      }
      if opt.numValues == 0 && opt.defaultSet {
        if position == 0 {
          return opt.defaultValue;
        }
        return None;
      }
      if position >= opt.numValues {
        return None;
      }
      var i, rest := 0, opt.values;
      while i < position
        invariant i <= position < opt.numValues && rest == opt.values[i..]
      {
        rest := rest[1..];
        i := i + 1;
      }
      value := Some(rest[0]);
    }
  }

  lemma ReadLongIsLong(text: string)
    ensures ReadLong(text).Some? ==> LONG_MIN <= ReadLong(text).value <= LONG_MAX
  {
  }
}
