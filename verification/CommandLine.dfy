/** The command line as a source of option values (src/config/commandline.c). */
module CommandLine {
  import opened Prelude
  import opened ConfigStore
  import opened ConfigYaml
  import opened ConfigEnv
  import Names

  const ARG_INDEX_BASE := 128
  const ARG_INDEX_OFFSET := 150

  // argp's own keys, as <argp.h> of the GNU C library defines them.
  const ARGP_KEY_END := 0x1000001
  const ARGP_KEY_NO_ARGS := 0x1000002
  const ARGP_KEY_INIT := 0x1000003
  const ARGP_KEY_SUCCESS := 0x1000004
  const ARGP_KEY_ERROR := 0x1000005
  const ARGP_KEY_FINI := 0x1000007

  const OPTION_DOC := 8

  datatype ArgpRow = ArgpRow(name: Option<string>, key: int, arg: Option<string>, flags: int, doc: Option<string>, group: int)

  const ZERO_ROW := ArgpRow(None, 0, None, 0, None, 0)

  /** The rows of the static table of early options, its terminator included. */
  const RAPP_OPTIONS: seq<ArgpRow> := [
    ArgpRow(None, 0, None, OPTION_DOC, Some("Logging:"), -3),
    ArgpRow(Some("log-level"), 128, Some("LOGLEVEL"), 0, Some("Log level, one of: {CRITICAL, ERROR, WARN, INFO, DEBUG}"), 0),
    ArgpRow(Some("log-output"), 129, Some("OUTPUT"), 0, Some("Log to file, defaults to <stderr>."), 0),
    ArgpRow(Some("log-nocolor"), 130, None, 0, Some("Disable colors in logs"), 0),
    ArgpRow(None, 0, None, OPTION_DOC, Some("Containers:"), -2),
    ArgpRow(Some("load"), 131, Some("PATH"), 0, Some("Load container .so"), 0),
    ZERO_ROW
  ]

  /** Those rows as they are copied: flags stay zero. */
  function EarlyRows(): (rows: seq<ArgpRow>)
    ensures |rows| == |RAPP_OPTIONS| && forall i :: 0 <= i < |rows| ==> rows[i] == RAPP_OPTIONS[i].(flags := 0)
  {
    seq(|RAPP_OPTIONS|, i requires 0 <= i < |RAPP_OPTIONS| => RAPP_OPTIONS[i].(flags := 0))
  }

  // ----------------------------------------------------------------------------------------------
  // Where everything is in the table
  // ----------------------------------------------------------------------------------------------

  /** The row of section s's title: behind the titles and options of the sections before it. */
  function TitleAt(store: Store, s: nat): (n: nat)
    requires s <= |store|
  {
    if s == 0 then 0 else TitleAt(store, s - 1) + 1 + |store[s - 1].options|
  }

  /** The row of an option. */
  function IndexOf(store: Store, r: Ref): nat
    requires InStore(store, r)
  {
    TitleAt(store, r.s) + 1 + r.o
  }

  function Rows(store: Store): nat {
    TitleAt(store, |store|)
  }

  lemma {:induction false} TitlesGrow(store: Store, s: nat, s': nat)
    requires s < s' <= |store|
    ensures TitleAt(store, s) + 1 + |store[s].options| <= TitleAt(store, s')
    decreases s'
  {
    if s + 1 < s' {
      TitlesGrow(store, s, s' - 1);
    }
  }

  /** Which section a row belongs to. */
  lemma {:induction false} RowIsSomewhere(store: Store, i: nat, n: nat) returns (s: nat)
    requires n <= |store| && i < TitleAt(store, n)
    ensures s < n && TitleAt(store, s) <= i <= TitleAt(store, s) + |store[s].options|
    decreases n
  {
    if i < TitleAt(store, n - 1) {
      s := RowIsSomewhere(store, i, n - 1);
    } else {
      s := n - 1;
    }
  }

  /** Different options have different rows, below the last one, and no option's row is a title. */
  lemma IndexInjective(store: Store, r: Ref, r': Ref)
    requires InStore(store, r) && InStore(store, r')
    ensures IndexOf(store, r) < Rows(store)
    ensures IndexOf(store, r) == IndexOf(store, r') ==> r == r'
    ensures forall s :: 0 <= s < |store| ==> IndexOf(store, r) != TitleAt(store, s)
  {
    TitlesGrow(store, r.s, |store|);
    if r.s < r'.s { TitlesGrow(store, r.s, r'.s); }
    if r'.s < r.s { TitlesGrow(store, r'.s, r.s); }
    forall s | 0 <= s < |store| ensures IndexOf(store, r) != TitleAt(store, s) {
      if s < r.s { TitlesGrow(store, s, r.s); }
      if r.s < s { TitlesGrow(store, r.s, s); }
    }
  }

  /** The option whose row is i, found from the sizes of the sections alone. */
  function OptionAt(store: Store, i: nat, s: nat): Option<Ref>
    requires s <= |store|
    decreases |store| - s
  {
    if s == |store| then None
    else if i == 0 then None
    else if i <= |store[s].options| then Some(Ref(s, i - 1))
    else OptionAt(store, i - 1 - |store[s].options|, s + 1)
  }

  lemma {:induction false} OptionAtInverts(store: Store, i: nat, s: nat)
    requires s <= |store| && i >= TitleAt(store, s)
    ensures var r := OptionAt(store, i - TitleAt(store, s), s);
      && (r.Some? ==> InStore(store, r.value) && IndexOf(store, r.value) == i)
      && (r == None ==> forall q :: InStore(store, q) && q.s >= s ==> IndexOf(store, q) != i)
    decreases |store| - s
  {
    if s < |store| {
      var j := i - TitleAt(store, s);
      if j > |store[s].options| {
        OptionAtInverts(store, i, s + 1);
      } else if j == 0 {
        forall q | InStore(store, q) && q.s >= s ensures IndexOf(store, q) != i {
          if q.s > s { TitlesGrow(store, s, q.s); }
        }
      }
    }
  }

  // ----------------------------------------------------------------------------------------------
  // The option handler
  // ----------------------------------------------------------------------------------------------

  predicate IsArgpKey(key: int) {
    key in {ARGP_KEY_END, ARGP_KEY_NO_ARGS, ARGP_KEY_INIT, ARGP_KEY_SUCCESS, ARGP_KEY_ERROR, ARGP_KEY_FINI}
  }

  /** The option that a key belongs to. */
  function Target(store: Store, key: int): Option<Ref> {
    if IsArgpKey(key) || key < ARG_INDEX_OFFSET then None else OptionAt(store, key - ARG_INDEX_OFFSET, 0)
  }

  function KeyOf(store: Store, r: Ref): int
    requires InStore(store, r)
  {
    IndexOf(store, r) + ARG_INDEX_OFFSET
  }

  /** An option's key leads back to exactly that option, unless argp uses the key itself; other keys lead nowhere. */
  lemma KeysInvert(store: Store, key: int)
    ensures Target(store, key).Some? ==>
      InStore(store, Target(store, key).value) && KeyOf(store, Target(store, key).value) == key
    ensures forall r :: InStore(store, r) ==>
      (Target(store, KeyOf(store, r)) == Some(r) <==> !IsArgpKey(KeyOf(store, r)))
  {
    if key >= ARG_INDEX_OFFSET {
      OptionAtInverts(store, key - ARG_INDEX_OFFSET, 0);
    }
    forall r | InStore(store, r) ensures Target(store, KeyOf(store, r)) == Some(r) <==> !IsArgpKey(KeyOf(store, r)) {
      OptionAtInverts(store, IndexOf(store, r), 0);
      var q := OptionAt(store, IndexOf(store, r), 0);
      if q.Some? {
        IndexInjective(store, r, q.value);
      }
    }
  }

  /** The smallest table in which it does: its last option has the key that argp uses for the end of the arguments. */
  lemma ArgpOwnsKey(o: ConfigOption)
    ensures var n := ARGP_KEY_END - ARG_INDEX_OFFSET;
      var store := [Section(CORE, n, seq(n, _ => o))];
      KeyOf(store, Ref(0, n - 1)) == ARGP_KEY_END && Target(store, KeyOf(store, Ref(0, n - 1))) == None
  {
    var n := ARGP_KEY_END - ARG_INDEX_OFFSET;
    var store := [Section(CORE, n, seq(n, _ => o))];
    assert TitleAt(store, 0) == 0;
  }

  datatype Event = Event(key: int, arg: Option<string>)

  /** Whether the handler reports success. */
  predicate Handles(store: Store, e: Event) {
    if IsArgpKey(e.key) then e.key != ARGP_KEY_ERROR
    else if ARG_INDEX_BASE <= e.key < ARG_INDEX_OFFSET then true
    else
      var r := Target(store, e.key);
      r.Some? && InStore(store, r.value) && e.arg.Some? && At(store, r.value).Readable(e.arg.value)
  }

  /** The store after the handler ran: at most the key's own option has changed. */
  function Handled(store: Store, e: Event): Store {
    var r := Target(store, e.key);
    if Handles(store, e) && r.Some? && InStore(store, r.value) && e.arg.Some?
    then With(store, r.value, At(store, r.value).AddText(e.arg.value).(noOverride := true))
    else store
  }

  /** Whatever the key and the argument, the only option that can change is the one whose own key it is. */
  lemma OthersUntouched(store: Store, e: Event, r: Ref)
    requires InStore(store, r) && (e.key != KeyOf(store, r) || IsArgpKey(e.key) || !Handles(store, e))
    ensures InStore(Handled(store, e), r) && At(Handled(store, e), r) == At(store, r)
  {
    hide ConfigOption.Readable, ConfigOption.AddText;
    KeysInvert(store, e.key);
  }

  /** argp hands over one event after the other and gives up with the first that fails. */
  function Run(store: Store, events: seq<Event>): (x: (bool, Store))
    decreases |events|
  {
    if events == [] then (true, store)
    else if !Handles(store, events[0]) then (false, Handled(store, events[0]))
    else Run(Handled(store, events[0]), events[1..])
  }

  // ----------------------------------------------------------------------------------------------
  // What a whole command line does to one option
  // ----------------------------------------------------------------------------------------------

  /** The arguments that a command line gives to an option, in order. */
  function ArgsFor(store: Store, events: seq<Event>, r: Ref): seq<string> {
    if events == [] then [] else
      (if Target(store, events[0].key) == Some(r) && events[0].arg.Some? then [events[0].arg.value] else [])
      + ArgsFor(store, events[1..], r)
  }

  /** Rows depend on the sizes of sections only. */
  ghost predicate SameSizes(store: Store, store': Store) {
    |store'| == |store| && forall i :: 0 <= i < |store| ==> |store'[i].options| == |store[i].options|
  }

  lemma {:induction false} SameRows(store: Store, store': Store, i: nat, s: nat)
    requires SameSizes(store, store') && s <= |store|
    ensures OptionAt(store', i, s) == OptionAt(store, i, s)
    decreases |store| - s
  {
    if s < |store| && i > |store[s].options| {
      SameRows(store, store', i - 1 - |store[s].options|, s + 1);
    }
  }

  lemma SameTarget(store: Store, store': Store, key: int)
    requires SameSizes(store, store')
    ensures Target(store', key) == Target(store, key)
  {
    if key >= ARG_INDEX_OFFSET {
      SameRows(store, store', key - ARG_INDEX_OFFSET, 0);
    }
  }

  lemma {:induction false} SameArgs(store: Store, store': Store, events: seq<Event>, r: Ref)
    requires SameSizes(store, store')
    ensures ArgsFor(store', events, r) == ArgsFor(store, events, r)
  {
    if events != [] {
      SameTarget(store, store', events[0].key);
      SameArgs(store, store', events[1..], r);
    }
  }

  lemma HandledSizes(store: Store, e: Event)
    ensures SameSizes(store, Handled(store, e))
    ensures forall q :: InStore(store, q) <==> InStore(Handled(store, e), q)
    ensures forall i :: 0 <= i < |store| ==> Handled(store, e)[i].name == store[i].name
  {
    var store' := Handled(store, e);
    forall i | 0 <= i < |store| ensures |store'[i].options| == |store[i].options| {
    }
  }

  /** An option after the given arguments: they are added in order, and any argument locks it. */
  function FromArgs(o: ConfigOption, args: seq<string>): ConfigOption {
    if args == [] then o else AddTexts(o, args).(noOverride := true)
  }

  lemma HandledOption(store: Store, e: Event, r: Ref)
    requires InStore(store, r) && Handles(store, e)
    ensures At(Handled(store, e), r) == FromArgs(At(store, r), ArgsFor(store, [e], r))
    ensures forall t :: t in ArgsFor(store, [e], r) ==> At(store, r).Readable(t)
  {
    hide ConfigOption.AddText, ConfigOption.Readable;
    KeysInvert(store, e.key);
    assert [e][1..] == [];
    if Target(store, e.key) == Some(r) && e.arg.Some? {
      assert ArgsFor(store, [e], r) == [e.arg.value];
      assert [e.arg.value][1..] == [];
      assert AddTexts(At(store, r), [e.arg.value]) == At(store, r).AddText(e.arg.value);
    } else {
      assert ArgsFor(store, [e], r) == [];
    }
  }

  lemma {:induction false} AddTextsSplits(o: ConfigOption, a: seq<string>, b: seq<string>)
    ensures AddTexts(o, a + b) == AddTexts(AddTexts(o, a), b)
    decreases |a|
  {
    if a == [] {
      assert a + b == b;
    } else {
      assert (a + b)[1..] == a[1..] + b;
      AddTextsSplits(o.AddText(a[0]), a[1..], b);
    }
  }

  lemma AddTextLocked(o: ConfigOption, text: string)
    ensures o.(noOverride := true).AddText(text) == o.AddText(text).(noOverride := true)
  {
    hide BoolText, ReadLong, ConfigOption.AddInt, ConfigOption.AddString;
    var o' := o.(noOverride := true);
    assert o'.Readable(text) == o.Readable(text);
    forall v: int {:trigger o.AddInt(v)} ensures o'.AddInt(v) == o.AddInt(v).(noOverride := true) {
      AddIntLocked(o, v);
    }
    AddStringLocked(o, text);
  }

  lemma AddIntLocked(o: ConfigOption, v: int)
    ensures o.(noOverride := true).AddInt(v) == o.AddInt(v).(noOverride := true)
  {
  }

  lemma AddStringLocked(o: ConfigOption, text: string)
    ensures o.(noOverride := true).AddString(text) == o.AddString(text).(noOverride := true)
  {
  }

  lemma {:induction false} AddTextsLocked(o: ConfigOption, texts: seq<string>)
    ensures AddTexts(o.(noOverride := true), texts) == AddTexts(o, texts).(noOverride := true)
    decreases |texts|
  {
    hide ConfigOption.AddText;
    if texts != [] {
      AddTextLocked(o, texts[0]);
      AddTextsLocked(o.AddText(texts[0]), texts[1..]);
    }
  }

  lemma FromArgsSplits(o: ConfigOption, a: seq<string>, b: seq<string>)
    ensures FromArgs(o, a + b) == FromArgs(FromArgs(o, a), b)
  {
    if a == [] {
      assert a + b == b;
    } else if b == [] {
      assert a + b == a;
    } else {
      AddTextsSplits(o, a, b);
      AddTextsLocked(AddTexts(o, a), b);
    }
  }

  /** An accepted command line gives every option exactly its own arguments, in order. */
  lemma {:induction false} RunDecides(store: Store, events: seq<Event>, r: Ref)
    requires InStore(store, r) && Run(store, events).0
    ensures SameSizes(store, Run(store, events).1) && InStore(Run(store, events).1, r)
    ensures At(Run(store, events).1, r) == FromArgs(At(store, r), ArgsFor(store, events, r))
    decreases |events|
  {
    hide Handled, Handles, FromArgs;
    if events == [] {
      NoArgs(At(store, r));
    } else {
      var e := events[0];
      var store' := Handled(store, e);
      HandledSizes(store, e);
      HandledOption(store, e, r);
      RunDecides(store', events[1..], r);
      SameArgs(store, store', events[1..], r);
      assert [e][1..] == [] && ArgsFor(store, [], r) == [];
      assert ArgsFor(store, events, r) == ArgsFor(store, [e], r) + ArgsFor(store, events[1..], r);
      FromArgsSplits(At(store, r), ArgsFor(store, [e], r), ArgsFor(store, events[1..], r));
    }
  }

  /** Exactly the rows of boolean options have no argument name. */
  lemma ArglessIsBoolean(store: Store, r: Ref)
    requires InStore(store, r)
    ensures OptionRow(store, r).arg == None <==> At(store, r).kind.ParamBool?
  {
  }

  /** argp gives no argument to an option whose row has no argument name. */
  ghost predicate FromRows(store: Store, events: seq<Event>) {
    forall i, r :: 0 <= i < |events| && InStore(store, r) && Target(store, events[i].key) == Some(r) && OptionRow(store, r).arg == None ==>
      events[i].arg == None
  }

  /** What argp delivers depends on names and types only, which no event changes. */
  lemma HandledRows(store: Store, e: Event, r: Ref)
    requires InStore(store, r)
    ensures InStore(Handled(store, e), r)
    ensures OptionRow(Handled(store, e), r).arg == OptionRow(store, r).arg
    ensures KeyOf(Handled(store, e), r) == KeyOf(store, r)
  {
    hide ConfigOption.Readable;
    HandledSizes(store, e);
    SameTitles(store, Handled(store, e), r.s);
  }

  lemma {:induction false} SameTitles(store: Store, store': Store, s: nat)
    requires SameSizes(store, store') && s <= |store|
    ensures TitleAt(store', s) == TitleAt(store, s)
  {
    if s > 0 {
      SameTitles(store, store', s - 1);
    }
  }

  /**
    No boolean option can be set on the command line: an event with its key, unless argp uses that key itself,
    makes the command line fail, and an accepted one leaves it as it was.
   */
  lemma {:induction false} BooleansStay(store: Store, events: seq<Event>, r: Ref)
    requires InStore(store, r) && At(store, r).kind.ParamBool? && FromRows(store, events)
    ensures (exists i :: 0 <= i < |events| && events[i].key == KeyOf(store, r) && !IsArgpKey(events[i].key)) ==> !Run(store, events).0
    ensures Run(store, events).0 ==> InStore(Run(store, events).1, r) && At(Run(store, events).1, r) == At(store, r)
    decreases |events|
  {
    hide ConfigOption.Readable, ConfigOption.AddText, Target, KeyOf, OptionRow, IsArgpKey, Handles, Handled;
    if events != [] {
      var e := events[0];
      ArglessIsBoolean(store, r);
      BooleanEvent(store, e, r);
      if Handles(store, e) {
        var store' := Handled(store, e);
        HandledRows(store, e, r);
        RowsStay(store, events);
        BooleansStay(store', events[1..], r);
        if i :| 0 <= i < |events| && events[i].key == KeyOf(store, r) && !IsArgpKey(events[i].key) {
          assert i > 0 && events[1..][i - 1].key == KeyOf(store', r);
        }
      }
    }
  }

  lemma BooleanEvent(store: Store, e: Event, r: Ref)
    requires InStore(store, r) && (Target(store, e.key) == Some(r) ==> e.arg == None)
    ensures e.key == KeyOf(store, r) && !IsArgpKey(e.key) ==> !Handles(store, e)
    ensures InStore(Handled(store, e), r) && At(Handled(store, e), r) == At(store, r)
  {
    hide ConfigOption.Readable, ConfigOption.AddText;
    KeysInvert(store, e.key);
  }

  lemma RowsStay(store: Store, events: seq<Event>)
    requires events != [] && FromRows(store, events)
    ensures FromRows(Handled(store, events[0]), events[1..])
  {
    hide OptionRow, Target, Handled;
    var e, store' := events[0], Handled(store, events[0]);
    HandledSizes(store, e);
    forall i, r | 0 <= i < |events[1..]| && InStore(store', r) && Target(store', events[1..][i].key) == Some(r)
                  && OptionRow(store', r).arg == None
      ensures events[1..][i].arg == None
    {
      HandledRows(store, e, r);
      SameTarget(store, store', events[i + 1].key);
      assert events[1..][i] == events[i + 1];
    }
  }

  lemma NoArgs(o: ConfigOption)
    ensures FromArgs(o, []) == o
  {
  }

  // ----------------------------------------------------------------------------------------------
  // The table itself
  // ----------------------------------------------------------------------------------------------

  function TitleRow(store: Store, s: nat): ArgpRow
    requires s < |store|
  {
    ArgpRow(None, 0, None, OPTION_DOC, Some("Options for '" + store[s].name + "':"), s + 1)
  }

  function OptionRow(store: Store, r: Ref): ArgpRow
    requires InStore(store, r)
  {
    var o := At(store, r);
    ArgpRow(Some(Names.CommandLineName(store[r.s].name, o.name)),
            KeyOf(store, r),
            if o.kind.ParamBool? then None
            else if o.metavar == None then Some(Names.UpperAll(o.name))
            else o.metavar,
            0, o.help, r.s + 1)
  }

  /**
    Up to row `upto` the table is filled: titles map to nothing, each option's row has its key and maps back to
    it; behind that everything is zero.
   */
  ghost predicate Filled(store: Store, rows: seq<ArgpRow>, targets: seq<Option<Ref>>, upto: nat) {
    && |rows| == |targets| == Rows(store) + 1 + |RAPP_OPTIONS| && upto <= Rows(store)
    && (forall s :: 0 <= s < |store| && TitleAt(store, s) < upto ==>
          rows[TitleAt(store, s)] == TitleRow(store, s) && targets[TitleAt(store, s)] == None)
    && (forall r :: InStore(store, r) && IndexOf(store, r) < upto ==>
          rows[IndexOf(store, r)] == OptionRow(store, r) && targets[IndexOf(store, r)] == Some(r))
    && (forall i :: upto <= i < |rows| ==> rows[i] == ZERO_ROW && targets[i] == None)
  }

  lemma FillTitle(store: Store, rows: seq<ArgpRow>, targets: seq<Option<Ref>>, s: nat)
    requires s < |store| && Filled(store, rows, targets, TitleAt(store, s))
    ensures TitleAt(store, s) < Rows(store) < |rows|
    ensures Filled(store, rows[TitleAt(store, s) := TitleRow(store, s)], targets, TitleAt(store, s) + 1)
  {
    TitlesGrow(store, s, |store|);
    var t := TitleAt(store, s);
    var rows' := rows[t := TitleRow(store, s)];
    forall s' | 0 <= s' < |store| && TitleAt(store, s') < t + 1
      ensures rows'[TitleAt(store, s')] == TitleRow(store, s') && targets[TitleAt(store, s')] == None
    {
      if s' < s { TitlesGrow(store, s', s); }
      if s < s' { TitlesGrow(store, s, s'); }
    }
    forall r | InStore(store, r) && IndexOf(store, r) < t + 1
      ensures rows'[IndexOf(store, r)] == OptionRow(store, r) && targets[IndexOf(store, r)] == Some(r)
    {
      IndexInjective(store, r, r);
    }
  }

  lemma FillOption(store: Store, rows: seq<ArgpRow>, targets: seq<Option<Ref>>, r: Ref)
    requires InStore(store, r) && Filled(store, rows, targets, IndexOf(store, r))
    ensures IndexOf(store, r) < Rows(store) < |rows|
    ensures Filled(store, rows[IndexOf(store, r) := OptionRow(store, r)], targets[IndexOf(store, r) := Some(r)], IndexOf(store, r) + 1)
  {
    hide OptionRow, TitleRow;
    IndexInjective(store, r, r);
    var t := IndexOf(store, r);
    var rows', targets' := rows[t := OptionRow(store, r)], targets[t := Some(r)];
    forall q | InStore(store, q) && IndexOf(store, q) < t + 1
      ensures rows'[IndexOf(store, q)] == OptionRow(store, q) && targets'[IndexOf(store, q)] == Some(q)
    {
      IndexInjective(store, r, q);
    }
  }

  /** A filled table answers every lookup with the option that the row belongs to. */
  lemma LookupIsOptionAt(store: Store, rows: seq<ArgpRow>, targets: seq<Option<Ref>>, i: nat)
    requires Filled(store, rows, targets, Rows(store))
    ensures i < |targets| ==> targets[i] == OptionAt(store, i, 0)
    ensures i >= Rows(store) ==> OptionAt(store, i, 0) == None
  {
    hide OptionRow, TitleRow;
    OptionAtInverts(store, i, 0);
    var q := OptionAt(store, i, 0);
    if i < Rows(store) {
      var s := RowIsSomewhere(store, i, |store|);
      if i > TitleAt(store, s) {
        var r := Ref(s, i - TitleAt(store, s) - 1);
        assert InStore(store, r) && IndexOf(store, r) == i;
        IndexInjective(store, r, r);
      }
    }
    if q.Some? {
      IndexInjective(store, q.value, q.value);
    }
  }

  // ----------------------------------------------------------------------------------------------
  // From the rows to the options
  // ----------------------------------------------------------------------------------------------

  /**
    In a filled table the row of each option carries a key that leads back to exactly that option, unless argp uses
    the key itself; rows of different options have different keys; and title rows have a key that leads nowhere.
   */
  lemma {:induction false} RowsLeadBack(store: Store, rows: seq<ArgpRow>, targets: seq<Option<Ref>>)
    requires Filled(store, rows, targets, Rows(store))
    ensures forall r :: InStore(store, r) ==> IndexOf(store, r) < |rows|
    ensures forall r :: InStore(store, r) ==>
      (Target(store, rows[IndexOf(store, r)].key) == Some(r) <==> !IsArgpKey(rows[IndexOf(store, r)].key))
    ensures forall r, q :: InStore(store, r) && InStore(store, q) && rows[IndexOf(store, r)].key == rows[IndexOf(store, q)].key ==> r == q
    ensures forall s :: 0 <= s < |store| ==> TitleAt(store, s) < |rows| && Target(store, rows[TitleAt(store, s)].key) == None
  {
    hide Target;
    forall r | InStore(store, r)
      ensures IndexOf(store, r) < Rows(store) && rows[IndexOf(store, r)].key == KeyOf(store, r)
      ensures Target(store, KeyOf(store, r)) == Some(r) <==> !IsArgpKey(KeyOf(store, r))
    {
      IndexInjective(store, r, r);
      KeysInvert(store, KeyOf(store, r));
    }
    forall r, q | InStore(store, r) && InStore(store, q) && rows[IndexOf(store, r)].key == rows[IndexOf(store, q)].key
      ensures r == q
    {
      IndexInjective(store, r, q);
    }
    forall s | 0 <= s < |store| ensures TitleAt(store, s) < Rows(store) {
      TitlesGrow(store, s, |store|);
    }
    ZeroLeadsNowhere(store);
  }

  lemma ZeroLeadsNowhere(store: Store)
    ensures Target(store, 0) == None
  {
  }

  /** The title row of a section names it, has no option of its own, and stands in front of its group. */
  lemma RowsShowTitles(store: Store, rows: seq<ArgpRow>, targets: seq<Option<Ref>>, s: nat)
    requires Filled(store, rows, targets, Rows(store)) && s < |store|
    ensures TitleAt(store, s) < |rows|
    ensures var row := rows[TitleAt(store, s)];
      && row.name == None && row.arg == None && row.flags == OPTION_DOC && row.group == s + 1
      && row.doc.Some? && |row.doc.value| == |store[s].name| + 15
      && row.doc.value[13..|row.doc.value| - 2] == store[s].name
    ensures forall o :: 0 <= o < |store[s].options| ==>
      IndexOf(store, Ref(s, o)) < |rows| && rows[IndexOf(store, Ref(s, o))].group == rows[TitleAt(store, s)].group
  {
    TitlesGrow(store, s, |store|);
    forall o | 0 <= o < |store[s].options| ensures IndexOf(store, Ref(s, o)) < Rows(store) {
      IndexInjective(store, Ref(s, o), Ref(s, o));
    }
    var doc := "Options for '" + store[s].name + "':";
    assert doc[13..|doc| - 2] == store[s].name;
  }

  /** The row of an option shows the option: its dashed name, its argument unless it is a boolean, its help. */
  lemma RowsShowOptions(store: Store, rows: seq<ArgpRow>, targets: seq<Option<Ref>>, r: Ref)
    requires Filled(store, rows, targets, Rows(store)) && InStore(store, r)
    requires ValidName(store[r.s].name) && ValidName(At(store, r).name)
    ensures IndexOf(store, r) < |rows|
    ensures var row, o := rows[IndexOf(store, r)], At(store, r); var joined := Names.Joined(store[r.s].name, o.name);
      && row.name.Some? && |row.name.value| == |joined|
      && (forall i :: 0 <= i < |joined| ==> row.name.value[i] == if joined[i] == '_' then '-' else joined[i])
      && row.doc == o.help && row.flags == 0 && row.group == r.s + 1
      && match o.kind
         case ParamBool => row.arg == None
         case _ => row.arg.Some? && (if o.metavar.Some? then row.arg == o.metavar
                                     else |row.arg.value| == |o.name|
                                          && forall i :: 0 <= i < |o.name| ==> row.arg.value[i] == Names.Upper(o.name[i]))
  {
    hide Target, ValidName, Names.Joined, Names.CommandLineName, Names.EnvironmentName;
    IndexInjective(store, r, r);
    Names.OutsideNamesUndone(store[r.s].name, At(store, r).name);
  }

  /** An option that is given on the command line, and its argument. */
  datatype GivenOption = GivenOption(r: Ref, arg: Option<string>)

  /** What argp makes of given options: it hands over the keys that it finds in their rows. */
  function EventsFor(store: Store, rows: seq<ArgpRow>, given: seq<GivenOption>): seq<Event>
    requires forall g :: g in given ==> InStore(store, g.r) && IndexOf(store, g.r) < |rows|
  {
    if given == [] then [] else
      [Event(rows[IndexOf(store, given[0].r)].key, given[0].arg)] + EventsFor(store, rows, given[1..])
  }

  /** The arguments that are given to an option, in order. */
  function ArgsGiven(given: seq<GivenOption>, r: Ref): seq<string> {
    if given == [] then [] else
      (if given[0].r == r && given[0].arg.Some? then [given[0].arg.value] else []) + ArgsGiven(given[1..], r)
  }

  lemma {:induction false} ArgsFromRows(store: Store, rows: seq<ArgpRow>, targets: seq<Option<Ref>>, given: seq<GivenOption>, r: Ref)
    requires Filled(store, rows, targets, Rows(store)) && InStore(store, r)
    requires forall g :: g in given ==> InStore(store, g.r) && IndexOf(store, g.r) < |rows| && !IsArgpKey(rows[IndexOf(store, g.r)].key)
    ensures ArgsFor(store, EventsFor(store, rows, given), r) == ArgsGiven(given, r)
    decreases |given|
  {
    hide Filled, Target, IsArgpKey, IndexOf;
    if given != [] {
      RowsLeadBack(store, rows, targets);
      assert given[0] in given;
      ArgsFromRows(store, rows, targets, given[1..], r);
      var events := EventsFor(store, rows, given);
      assert events[1..] == EventsFor(store, rows, given[1..]);
    }
  }

  /**
    Options given by the names in the filled table, none of whose keys is argp's own: an accepted command line gives
    every option exactly the arguments that were given to it, in order, and locks exactly the options that got one.
   */
  lemma GivenDecides(store: Store, rows: seq<ArgpRow>, targets: seq<Option<Ref>>, given: seq<GivenOption>, r: Ref)
    requires Filled(store, rows, targets, Rows(store)) && InStore(store, r)
    requires forall g :: g in given ==> InStore(store, g.r) && IndexOf(store, g.r) < |rows| && !IsArgpKey(rows[IndexOf(store, g.r)].key)
    requires Run(store, EventsFor(store, rows, given)).0
    ensures var store' := Run(store, EventsFor(store, rows, given)).1;
      && InStore(store', r)
      && At(store', r) == if ArgsGiven(given, r) == [] then At(store, r) else AddTexts(At(store, r), ArgsGiven(given, r)).(noOverride := true)
  {
    hide Filled, Target, IsArgpKey, IndexOf, Run, AddTexts;
    ArgsFromRows(store, rows, targets, given, r);
    RunDecides(store, EventsFor(store, rows, given), r);
  }

  /**
    The handler accepts an event exactly if it is one of argp's own but the error, an early option, or the key of an
    option together with a text that the option can read.
   */
  lemma HandlesExactly(store: Store, e: Event)
    ensures Handles(store, e) <==>
      if IsArgpKey(e.key) then e.key != ARGP_KEY_ERROR
      else (ARG_INDEX_BASE <= e.key < ARG_INDEX_OFFSET)
           || exists r :: InStore(store, r) && KeyOf(store, r) == e.key && e.arg.Some? && At(store, r).Readable(e.arg.value)
  {
    hide ConfigOption.Readable, Target, IsArgpKey;
    KeysInvert(store, e.key);
    if r :| InStore(store, r) && KeyOf(store, r) == e.key && e.arg.Some? && At(store, r).Readable(e.arg.value) {
      assert KeyOf(store, r) >= ARG_INDEX_OFFSET;
    }
  }

  class CommandTable {
    var options: array?<ArgpRow>
    var optionsMap: array?<Option<Ref>>
    var numArgpOptions: nat

    constructor ()
      ensures options == null && optionsMap == null
    {
      options, optionsMap, numArgpOptions := null, null, 0;
    }

    ghost predicate Holds(store: Store, upto: nat)
      reads this, options, optionsMap
    {
      options != null && optionsMap != null && Filled(store, options[..], optionsMap[..], upto)
    }

    /** Refuses to run twice; otherwise allocates the counted rows and fills them section by section. */
    method GenerateCommandline(conf: RappConfig) returns (ok: bool)
      requires conf.Valid()
      modifies this
      ensures ok <==> old(options) == null
      ensures ok ==> Holds(conf.sections, Rows(conf.sections)) && numArgpOptions == Rows(conf.sections) && fresh(options) && fresh(optionsMap)
    {
      hide Filled, OptionRow, TitleRow;
      if options != null {
        return false;
      }
      ok := true;
      var store := conf.sections;
      var numOptions := CountRows(conf);
      var opts := new ArgpRow[numOptions + |RAPP_OPTIONS|](_ => ZERO_ROW);
      var targets := new Option<Ref>[numOptions + |RAPP_OPTIONS|](_ => None);
      options, optionsMap := opts, targets;
      NothingFilled(store, opts[..], targets[..]);
      var index, s := 0, 0;
      while s < |store|
        invariant options == opts && optionsMap == targets && opts.Length == targets.Length
        invariant s <= |store| && index == TitleAt(store, s)
        invariant Filled(store, opts[..], targets[..], index)
      {
        FillTitle(store, opts[..], targets[..], s);
        FilledLength(store, opts[..], targets[..], index);
        opts[index] := TitleRow(store, s);
        index := index + 1;
        index := GenerateArgpForSection(store, s, opts, targets, index);
        s := s + 1;
      }
      numArgpOptions := index;
    }

    /** One row for the end, and for each section one for its title and one for each option it counts. */
    method CountRows(conf: RappConfig) returns (n: nat)
      requires conf.Valid()
      ensures n == Rows(conf.sections) + 1
    {
      n := 1;
      var s := 0;
      while s < |conf.sections|
        invariant s <= |conf.sections| && n == TitleAt(conf.sections, s) + 1
      {
        n := n + conf.sections[s].numOpts + 1;
        s := s + 1;
      }
    }

    method GenerateArgpForSection(store: Store, s: nat, opts: array<ArgpRow>, targets: array<Option<Ref>>, start: nat) returns (index: nat)
      requires s < |store| && start == TitleAt(store, s) + 1
      requires opts.Length == targets.Length && Filled(store, opts[..], targets[..], start)
      modifies opts, targets
      ensures index == TitleAt(store, s + 1) && Filled(store, opts[..], targets[..], index)
    {
      hide Filled, OptionRow;
      index := start;
      var o := 0;
      while o < |store[s].options|
        invariant o <= |store[s].options| && index == start + o && Filled(store, opts[..], targets[..], index)
      {
        var r := Ref(s, o);
        FillOption(store, opts[..], targets[..], r);
        FilledLength(store, opts[..], targets[..], index);
        WriteRow(store, r, opts, index);
        targets[index] := Some(r);
        index := index + 1;
        o := o + 1;
      }
    }

    /** Fills in the zeroed row of one option. */
    method WriteRow(store: Store, r: Ref, opts: array<ArgpRow>, index: nat)
      requires InStore(store, r) && index == IndexOf(store, r) < opts.Length && opts[index] == ZERO_ROW
      modifies opts
      ensures opts[..] == old(opts[..])[index := OptionRow(store, r)]
      ensures opts[index].key == index + ARG_INDEX_OFFSET && opts[index].doc == At(store, r).help && opts[index].group == r.s + 1
      ensures opts[index].name == Some(Names.CommandLineName(store[r.s].name, At(store, r).name))
    {
      hide Names.CommandLineName, Names.UpperAll, TitleAt;
      var opt := At(store, r);
      opts[index] := opts[index].(key := index + ARG_INDEX_OFFSET, name := Some(Names.CommandLineName(store[r.s].name, opt.name)));
      if opt.kind != ParamBool {
        if opt.metavar == None {
          opts[index] := opts[index].(arg := Some(Names.UpperAll(opt.name)));
        } else {
          opts[index] := opts[index].(arg := opt.metavar);
        }
      }
      opts[index] := opts[index].(group := r.s + 1);
      if opt.help.Some? {
        opts[index] := opts[index].(doc := opt.help);
      }
    }

    /** The early options, but not their flags, go behind the generated ones; one zero row remains at the end. */
    method CopyEarlyOptions(ghost store: Store)
      requires Holds(store, Rows(store)) && numArgpOptions == Rows(store)
      modifies options
      ensures options[..] == old(options[..Rows(store)]) + EarlyRows() + [ZERO_ROW]
    {
      ghost var before := options[..];
      var i := 0;
      while i < |RAPP_OPTIONS|
        invariant i <= |RAPP_OPTIONS|
        invariant forall k :: 0 <= k < options.Length ==>
          options[k] == if Rows(store) <= k < Rows(store) + i then EarlyRows()[k - Rows(store)] else before[k]
      {
        var index, early := i + numArgpOptions, RAPP_OPTIONS[i];
        options[index] := options[index].(name := early.name, arg := early.arg, key := early.key, group := early.group, doc := early.doc);
        i := i + 1;
      }
    }

    /** parse_commandline_opt: argp's own keys, the early options' keys, and then the table. */
    method ParseCommandlineOpt(conf: RappConfig, ghost store: Store, ghost rows: seq<ArgpRow>, e: Event) returns (ok: bool)
      requires conf.Valid() && SameSizes(store, conf.sections)
      requires optionsMap != null && Filled(store, rows, optionsMap[..], Rows(store)) && numArgpOptions == Rows(store)
      modifies conf
      ensures conf.Valid() && ok == Handles(old(conf.sections), e)
      ensures conf.sections == Handled(old(conf.sections), e)
    {
      hide SoundStore, Filled, ConfigOption.Readable, ConfigOption.AddText, SameSizes;
      SameTarget(store, conf.sections, e.key);
      if e.key == ARGP_KEY_NO_ARGS || e.key == ARGP_KEY_INIT || e.key == ARGP_KEY_FINI || e.key == ARGP_KEY_END
         || e.key == ARGP_KEY_SUCCESS {
        return true;
      }
      if e.key == ARGP_KEY_ERROR {
        return false;
      }
      if e.key >= ARG_INDEX_BASE && e.key < ARG_INDEX_OFFSET {
        return true;
      }
      var index := e.key - ARG_INDEX_OFFSET;
      if index < 0 {
        return false;
      }
      LookupIsOptionAt(store, rows, optionsMap[..], index);
      FilledLength(store, rows, optionsMap[..], Rows(store));
      if index > numArgpOptions {
        return false;
      }
      var r := optionsMap[index];
      if r == None {
        return false;
      }
      if e.arg == None {
        return false;
      }
      KeysInvert(conf.sections, e.key);
      UnreadableIsDropped(At(conf.sections, r.value), e.arg.value);
      WithItself(conf.sections, r.value);
      ok := conf.AddValueFromString(r.value, e.arg.value);
      if !ok {
        return;
      }
      WithAgain(old(conf.sections), r.value, At(conf.sections, r.value), At(conf.sections, r.value).(noOverride := true));
      conf.Lock(r.value);
    }

    /** Generates the table and hands argp's events to the handler, up to the first failure. */
    method ConfigParseCommandline(conf: RappConfig, events: seq<Event>) returns (ok: bool)
      requires conf.Valid()
      modifies this, conf
      ensures conf.Valid()
      ensures if old(options) != null then !ok && conf.sections == old(conf.sections)
              else (ok, conf.sections) == Run(old(conf.sections), events)
    {
      hide Filled, SoundStore, SameSizes, Handled, Handles;
      ok := GenerateCommandline(conf);
      if !ok {
        return;
      }
      ghost var store, rows, targets := conf.sections, options[..], optionsMap[..];
      CopyEarlyOptions(store);
      SizesItself(store);
      var i := 0;
      while ok && i < |events|
        invariant conf.Valid() && i <= |events| && SameSizes(store, conf.sections)
        invariant optionsMap != null && optionsMap[..] == targets && numArgpOptions == Rows(store)
        invariant Run(store, events) == if ok then Run(conf.sections, events[i..]) else (false, conf.sections)
      {
        assert events[i..][1..] == events[i + 1..];
        HandledSizes(conf.sections, events[i]);
        SizesOnwards(store, conf.sections, Handled(conf.sections, events[i]));
        ok := ParseCommandlineOpt(conf, store, rows, events[i]);
        i := i + 1;
      }
    }
  }

  lemma SizesItself(store: Store)
    ensures SameSizes(store, store)
  {
  }

  lemma SizesOnwards(a: Store, b: Store, c: Store)
    requires SameSizes(a, b) && SameSizes(b, c)
    ensures SameSizes(a, c)
  {
  }

  lemma FilledLength(store: Store, rows: seq<ArgpRow>, targets: seq<Option<Ref>>, upto: nat)
    requires Filled(store, rows, targets, upto)
    ensures |rows| == |targets| == Rows(store) + 1 + |RAPP_OPTIONS|
    ensures upto < |rows| ==> rows[upto] == ZERO_ROW
  {
  }

  lemma NothingFilled(store: Store, rows: seq<ArgpRow>, targets: seq<Option<Ref>>)
    requires |rows| == |targets| == Rows(store) + 1 + |RAPP_OPTIONS|
    requires forall i :: 0 <= i < |rows| ==> rows[i] == ZERO_ROW && targets[i] == None
    ensures Filled(store, rows, targets, 0)
  {
  }
}
