/**
  The two outside names of an option: its command-line name (src/config/commandline.c) and the name of its
  environment variable (src/config/env.c).
 */
module Names {
  import opened Prelude
  import opened ConfigStore

  function Dashed(c: char): char { if c == '_' then '-' else c }

  function Upper(c: char): char { if 'a' <= c <= 'z' then c - 'a' + 'A' else c }

  function DashedAll(s: string): (r: string)
    ensures |r| == |s| && forall i :: 0 <= i < |s| ==> r[i] == Dashed(s[i])
  {
    seq(|s|, i requires 0 <= i < |s| => Dashed(s[i]))
  }

  function UpperAll(s: string): (r: string)
    ensures |r| == |s| && forall i :: 0 <= i < |s| ==> r[i] == Upper(s[i])
  {
    seq(|s|, i requires 0 <= i < |s| => Upper(s[i]))
  }

  /** Core options have no prefix, other options their section's name and a dash. */
  function CommandLineName(section: string, name: string): string {
    DashedAll(if section == CORE then name else section + "-" + name)
  }

  /** The environment variable's name is upper-cased as a whole. */
  function EnvironmentName(section: string, name: string): string {
    UpperAll("RAPP_" + (if section == CORE then "" else section) + (if section == CORE then "" else "_") + name)
  }

  /** The text that both names render: the section, unless it is the core section, and the name, joined by an underscore. */
  function Joined(section: string, name: string): string {
    if section == CORE then name else section + "_" + name
  }

  /** Lower case letters and underscores only. */
  ghost predicate Plain(s: string) {
    forall i :: 0 <= i < |s| ==> IsLower(s[i]) || s[i] == '_'
  }

  lemma DashedInjective(a: string, b: string)
    requires Plain(a) && Plain(b) && DashedAll(a) == DashedAll(b)
    ensures a == b
  {
    forall i | 0 <= i < |a| ensures a[i] == b[i] {
      assert DashedAll(a)[i] == DashedAll(b)[i];
    }
  }

  lemma UpperInjective(a: string, b: string)
    requires Plain(a) && Plain(b) && UpperAll(a) == UpperAll(b)
    ensures a == b
  {
    forall i | 0 <= i < |a| ensures a[i] == b[i] {
      assert UpperAll(a)[i] == UpperAll(b)[i];
      UpperLetters(a[i], b[i]);
    }
  }

  lemma UpperLetters(a: char, b: char)
    requires (IsLower(a) || a == '_') && (IsLower(b) || b == '_') && Upper(a) == Upper(b)
    ensures a == b
  {
  }

  /** Each outside name is a letter-by-letter rendering of the joined name. */
  lemma NamesRenderJoined(section: string, name: string)
    requires ValidName(section) && ValidName(name)
    ensures Plain(Joined(section, name))
    ensures CommandLineName(section, name) == DashedAll(Joined(section, name))
    ensures EnvironmentName(section, name) == "RAPP_" + UpperAll(Joined(section, name))
  {
    var dashed := if section == CORE then name else section + "-" + name;
    assert DashedAll(dashed) == DashedAll(Joined(section, name));
    var core := "RAPP_" + (if section == CORE then "" else section) + (if section == CORE then "" else "_") + name;
    assert core == "RAPP_" + Joined(section, name);
    hide ValidName, DashedAll;
    UpperBehindPrefix(Joined(section, name));
  }

  lemma UpperBehindPrefix(s: string)
    ensures UpperAll("RAPP_" + s) == "RAPP_" + UpperAll(s)
  {
    assert UpperAll("RAPP_" + s) == UpperAll("RAPP_") + UpperAll(s);
    assert UpperAll("RAPP_") == "RAPP_";
  }

  /**
    The joined name can be read off either outside name: the command line's has dashes where it has underscores and
    no underscores, the environment's is all upper case behind its prefix.
   */
  lemma OutsideNamesUndone(section: string, name: string)
    requires ValidName(section) && ValidName(name)
    ensures var j, c := Joined(section, name), CommandLineName(section, name);
      && |c| == |j| && forall i :: 0 <= i < |j| ==> c[i] == (if j[i] == '_' then '-' else j[i]) && c[i] != '_'
    ensures var j, e := Joined(section, name), EnvironmentName(section, name);
      && |e| == 5 + |j| && e[..5] == "RAPP_"
      && forall i :: 0 <= i < |j| ==> (e[5 + i] == '_' || 'A' <= e[5 + i] <= 'Z') && Lower(e[5 + i]) == j[i]
  {
    hide ValidName, Joined, CommandLineName, EnvironmentName;
    NamesRenderJoined(section, name);
    var j := Joined(section, name);
    forall i | 0 <= i < |j| ensures (Upper(j[i]) == '_' || 'A' <= Upper(j[i]) <= 'Z') && Lower(Upper(j[i])) == j[i] {
      assert IsLower(j[i]) || j[i] == '_';
    }
    assert forall i :: 0 <= i < |j| ==> ("RAPP_" + UpperAll(j))[5 + i] == Upper(j[i]);
  }

  /**
    Two options share their command-line name exactly when they share their environment name, which is exactly
    when their joined names agree.
   */
  lemma SharedNames(s: string, n: string, s': string, n': string)
    requires ValidName(s) && ValidName(n) && ValidName(s') && ValidName(n')
    ensures CommandLineName(s, n) == CommandLineName(s', n') <==> Joined(s, n) == Joined(s', n')
    ensures EnvironmentName(s, n) == EnvironmentName(s', n') <==> Joined(s, n) == Joined(s', n')
  {
    hide ValidName, CommandLineName, EnvironmentName, Joined, Plain;
    NamesRenderJoined(s, n);
    NamesRenderJoined(s', n');
    var j, j' := Joined(s, n), Joined(s', n');
    if DashedAll(j) == DashedAll(j') {
      DashedInjective(j, j');
    }
    if "RAPP_" + UpperAll(j) == "RAPP_" + UpperAll(j') {
      AfterPrefix(UpperAll(j), UpperAll(j'));
      UpperInjective(j, j');
    }
  }

  lemma AfterPrefix(a: string, b: string)
    requires "RAPP_" + a == "RAPP_" + b
    ensures a == b
  {
    assert ("RAPP_" + a)[5..] == a && ("RAPP_" + b)[5..] == b;
  }

  /** Inside one section different names stay different outside. */
  lemma NamesOfOneSection(s: string, n: string, n': string)
    requires ValidName(s) && ValidName(n) && ValidName(n') && n != n'
    ensures CommandLineName(s, n) != CommandLineName(s, n') && EnvironmentName(s, n) != EnvironmentName(s, n')
  {
    hide ValidName, CommandLineName, EnvironmentName;
    SharedNames(s, n, s, n');
    if s != CORE {
      assert Joined(s, n)[|s| + 1..] == n && Joined(s, n')[|s| + 1..] == n';
    }
  }

  /** Across sections they can collide, with the core section and without. */
  lemma NamesCanCollide()
    ensures ValidName("web_app") && ValidName("port") && ValidName("web") && ValidName("app_port") && ValidName("web_app_port")
    ensures CommandLineName("web_app", "port") == CommandLineName("web", "app_port")
    ensures CommandLineName("web_app", "port") == CommandLineName(CORE, "web_app_port")
  {
    hide CommandLineName;
    assert Joined("web_app", "port") == "web_app_port" && Joined("web", "app_port") == "web_app_port";
    assert ValidName("web_app") && ValidName("port") && ValidName("web") && ValidName("app_port") && ValidName("web_app_port");
    assert ValidName(CORE);
    hide ValidName, Joined;
    NamesRenderJoined("web_app", "port");
    NamesRenderJoined("web", "app_port");
    NamesRenderJoined(CORE, "web_app_port");
  }

  /** A terminated string in a buffer: its length, and what it says. */
  ghost predicate Terminated(str: array<char>, n: nat)
    reads str
  {
    n < str.Length && str[n] == NUL && NUL !in str[..n]
  }

  method ReplaceUnderscores(str: array<char>, ghost n: nat)
    requires Terminated(str, n)
    modifies str
    ensures str[..] == DashedAll(old(str[..n])) + old(str[n..])
  {
    assert forall k :: 0 <= k < n ==> str[..n][k] != NUL;
    var i := 0;
    while str[i] != NUL
      invariant i <= n && str[n] == NUL && forall k :: i <= k < n ==> str[k] != NUL
      invariant forall k :: 0 <= k < i ==> str[k] == Dashed(old(str[k]))
      invariant forall k :: i <= k < str.Length ==> str[k] == old(str[k])
      decreases n - i
    {
      if str[i] == '_' {
        str[i] := '-';
      }
      i := i + 1;
    }
  }

  method Uppercase(str: array<char>, ghost n: nat)
    requires Terminated(str, n)
    modifies str
    ensures str[..] == UpperAll(old(str[..n])) + old(str[n..])
  {
    assert forall k :: 0 <= k < n ==> str[..n][k] != NUL;
    var i := 0;
    while str[i] != NUL
      invariant i <= n && str[n] == NUL && forall k :: i <= k < n ==> str[k] != NUL
      invariant forall k :: 0 <= k < i ==> str[k] == Upper(old(str[k]))
      invariant forall k :: i <= k < str.Length ==> str[k] == old(str[k])
      decreases n - i
    {
      str[i] := Upper(str[i]);
      i := i + 1;
    }
  }
}
