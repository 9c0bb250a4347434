/** The Environment block of the systemd unit: how it is rendered and quoted, and a reader
    that undoes it. */
module Systemd {
  import opened Wrappers
  import opened Text

  // ---------- Quoting ----------

  /** strings.ReplaceAll for a one-character pattern. */
  function ReplaceAll(s: string, what: char, with: string): string {
    if s == "" then "" else (if s[0] == what then with else [s[0]]) + ReplaceAll(s[1..], what, with)
  }

  /** Two passes, as the code makes them. */
  function SystemdEscape(v: string): string {
    ReplaceAll(ReplaceAll(v, '\\', "\\\\"), '"', "\\\"")
  }

  /** The same, one character at a time. */
  function EscapeEach(v: string): string {
    if v == "" then "" else (if v[0] == '\\' || v[0] == '"' then ['\\', v[0]] else [v[0]]) + EscapeEach(v[1..])
  }

  lemma {:induction false} ReplaceConcat(a: string, b: string, what: char, with: string)
    ensures ReplaceAll(a + b, what, with) == ReplaceAll(a, what, with) + ReplaceAll(b, what, with)
  {
    if a == "" {
      assert a + b == b;
    } else {
      assert (a + b)[1..] == a[1..] + b;
      ReplaceConcat(a[1..], b, what, with);
    }
  }

  /** The second pass does not disturb what the first one inserted. */
  lemma {:induction false} TwoPassesAreOne(v: string)
    ensures SystemdEscape(v) == EscapeEach(v)
  {
    if v != "" {
      TwoPassesAreOne(v[1..]);
      var head := if v[0] == '\\' then "\\\\" else [v[0]];
      ReplaceConcat(head, ReplaceAll(v[1..], '\\', "\\\\"), '"', "\\\"");
      assert head[1..] == "" || head[1..] == "\\";
      assert ReplaceAll(head, '"', "\\\"") == if v[0] == '\\' || v[0] == '"' then ['\\', v[0]] else [v[0]];
    }
  }

  /** Reads quoted text; a bare quote, or a backslash at the end, is an error. */
  function Unescape(s: string): Option<string> {
    if s == "" then Some("")
    else if s[0] == '"' || (s[0] == '\\' && |s| == 1) then None
    else
      var taken := if s[0] == '\\' then 2 else 1;
      match Unescape(s[taken..])
      case None => None
      case Some(rest) => Some([s[taken - 1]] + rest)
  }

  /** Quoted text has no bare quote, and reads back as what was quoted. */
  lemma {:induction false} UnescapeUndoes(v: string)
    ensures Unescape(EscapeEach(v)) == Some(v)
  {
    if v != "" {
      UnescapeUndoes(v[1..]);
      var e := EscapeEach(v);
      if v[0] == '\\' || v[0] == '"' {
        assert e[2..] == EscapeEach(v[1..]) && e[0] == '\\' && e[1] == v[0];
      } else {
        assert e[1..] == EscapeEach(v[1..]) && e[0] == v[0];
      }
      assert [v[0]] + v[1..] == v;
    }
  }

  lemma EscapeInjective(a: string, b: string)
    requires SystemdEscape(a) == SystemdEscape(b)
    ensures a == b
  {
    TwoPassesAreOne(a);
    TwoPassesAreOne(b);
    UnescapeUndoes(a);
    UnescapeUndoes(b);
  }

  /** The escape works character by character: a backslash before quotes and backslashes, and
      nothing else. */
  lemma {:induction false} EscapeIsPerCharacter(a: string, b: string)
    ensures SystemdEscape(a + b) == SystemdEscape(a) + SystemdEscape(b)
    ensures forall c :: SystemdEscape([c]) == if c == '"' then "\\\"" else if c == '\\' then "\\\\" else [c]
  {
    ReplaceConcat(a, b, '\\', "\\\\");
    ReplaceConcat(ReplaceAll(a, '\\', "\\\\"), ReplaceAll(b, '\\', "\\\\"), '"', "\\\"");
    forall c ensures SystemdEscape([c]) == if c == '"' then "\\\"" else if c == '\\' then "\\\\" else [c] {
      TwoPassesAreOne([c]);
      assert [c][1..] == "";
      assert EscapeEach("") == "";
    }
  }

  lemma {:induction false} EscapeKeepsLines(v: string)
    requires '\n' !in v
    ensures '\n' !in EscapeEach(v)
  {
    if v != "" { EscapeKeepsLines(v[1..]); }
  }

  // ---------- Rendering ----------

  function Unlines(lines: seq<string>): string {
    if lines == [] then "" else lines[0] + "\n" + Unlines(lines[1..])
  }

  const TOP := [
    "[Unit]",
    "Description=Enclout Local Agent",
    "After=network-online.target",
    "",
    "[Service]",
    "Type=simple"]

  function ExecStart(binary: string): string {
    "ExecStart=" + binary
  }

  const RESTART := ["Restart=always", "RestartSec=2"]

  function Header(binary: string): seq<string> {
    TOP + [ExecStart(binary)] + RESTART
  }

  const FOOTER := ["", "[Install]", "WantedBy=default.target"]

  const ENVIRONMENT := "Environment=\""

  function EnvLine(key: string, value: string): string {
    ENVIRONMENT + SystemdEscape(key + "=" + value) + "\""
  }

  function EnvLines(env: map<string, string>, keys: seq<string>): (lines: seq<string>)
    requires forall k :: k in keys ==> k in env
    ensures |lines| == |keys|
  {
    seq(|keys|, i requires 0 <= i < |keys| => EnvLine(keys[i], env[keys[i]]))
  }

  ghost function UnitText(binary: string, env: map<string, string>): string {
    Unlines(Header(binary) + EnvLines(env, SortedListing(env.Keys)) + FOOTER)
  }

  lemma {:induction false} UnlinesConcat(a: seq<string>, b: seq<string>)
    ensures Unlines(a + b) == Unlines(a) + Unlines(b)
  {
    if a == [] {
      assert a + b == b;
    } else {
      assert (a + b)[1..] == a[1..] + b;
      UnlinesConcat(a[1..], b);
    }
  }

  lemma UnlinesSnoc(lines: seq<string>, line: string)
    ensures Unlines(lines + [line]) == Unlines(lines) + line + "\n"
  {
    UnlinesConcat(lines, [line]);
  }

  /** The keys, gathered in whatever order the map yields them, then sorted. */
  method SortedKeys(env: map<string, string>) returns (keys: seq<string>)
    ensures keys == SortedListing(env.Keys)
  {
    hide Sort;
    keys := [];
    var todo := env.Keys;
    while todo != {}
      invariant todo <= env.Keys
      invariant forall k :: k in keys <==> k in env && k !in todo
      invariant DistinctKeys(keys, Id)
      decreases todo
    {
      var key :| key in todo;
      todo := todo - {key};
      keys := keys + [key];
    }
    SortSorts(keys, Id);
    keys := Sort(keys, Id);
    SortedUnique(keys, SortedListing(env.Keys), Id);
  }

  /** The text is a function of the configuration alone, not of the map's order. */
  method RenderSystemdUnit(binary: string, env: map<string, string>) returns (b: string)
    ensures b == UnitText(binary, env)
  {
    hide UnitSoFar, EnvLine;
    b := Unlines(Header(binary));
    var keys: seq<string> := SortedKeys(env);
    RenderStart(binary, env, keys);
    for i := 0 to |keys|
      invariant b == UnitSoFar(binary, env, keys, i)
    {
      b := b + EnvLine(keys[i], env[keys[i]]) + "\n";
      RenderNext(binary, env, keys, i);
    }
    RenderEnd(binary, env, keys);
    b := b + Unlines(FOOTER);
  }

  /** The text once the first `n` keys are written. */
  function UnitSoFar(binary: string, env: map<string, string>, keys: seq<string>, n: nat): string
    requires n <= |keys| && (forall k :: k in keys ==> k in env)
  {
    Unlines(Header(binary) + EnvLines(env, keys)[..n])
  }

  lemma RenderStart(binary: string, env: map<string, string>, keys: seq<string>)
    requires forall k :: k in keys ==> k in env
    ensures UnitSoFar(binary, env, keys, 0) == Unlines(Header(binary))
  {
    assert Header(binary) + EnvLines(env, keys)[..0] == Header(binary);
  }

  lemma RenderNext(binary: string, env: map<string, string>, keys: seq<string>, n: nat)
    requires n < |keys| && (forall k :: k in keys ==> k in env)
    ensures keys[n] in env
    ensures UnitSoFar(binary, env, keys, n + 1)
         == UnitSoFar(binary, env, keys, n) + EnvLine(keys[n], env[keys[n]]) + "\n"
  {
    hide Unlines, Header, EnvLine;
    var lines := Header(binary) + EnvLines(env, keys)[..n];
    assert keys[n] in keys;
    assert Header(binary) + EnvLines(env, keys)[..n + 1] == lines + [EnvLine(keys[n], env[keys[n]])];
    UnlinesSnoc(lines, EnvLine(keys[n], env[keys[n]]));
  }

  lemma RenderEnd(binary: string, env: map<string, string>, keys: seq<string>)
    requires forall k :: k in keys ==> k in env
    ensures UnitSoFar(binary, env, keys, |keys|) + Unlines(FOOTER) == Unlines(Header(binary) + EnvLines(env, keys) + FOOTER)
  {
    hide Unlines, Header, EnvLine;
    assert EnvLines(env, keys)[..|keys|] == EnvLines(env, keys);
    UnlinesConcat(Header(binary) + EnvLines(env, keys), FOOTER);
  }

  // ---------- Reading back ----------

  function LineEnd(s: string): (e: nat)
    ensures e <= |s| && '\n' !in s[..e] && (e < |s| ==> s[e] == '\n')
  {
    if s == "" || s[0] == '\n' then 0 else 1 + LineEnd(s[1..])
  }

  function SplitLines(s: string): seq<string> {
    if s == "" then []
    else
      var e := LineEnd(s);
      [s[..e]] + if e < |s| then SplitLines(s[e + 1..]) else []
  }

  lemma {:induction false} LineEndsAtNewline(line: string, rest: string)
    requires '\n' !in line
    ensures LineEnd(line + "\n" + rest) == |line|
  {
    if line != "" {
      assert (line + "\n" + rest)[1..] == line[1..] + "\n" + rest;
      LineEndsAtNewline(line[1..], rest);
    }
  }

  lemma SplitFirst(line: string, rest: string)
    requires '\n' !in line
    ensures SplitLines(line + "\n" + rest) == [line] + SplitLines(rest)
  {
    var s := line + "\n" + rest;
    LineEndsAtNewline(line, rest);
    assert s[..|line|] == line && s[|line| + 1..] == rest;
  }

  /** Lines without newlines come first, and as they are. */
  lemma {:induction false} SplitUndoesUnlines(lines: seq<string>, rest: string)
    requires forall l :: l in lines ==> '\n' !in l
    ensures SplitLines(Unlines(lines) + rest) == lines + SplitLines(rest)
  {
    hide SplitLines;
    if lines == [] {
      assert Unlines(lines) + rest == rest;
      assert lines + SplitLines(rest) == SplitLines(rest);
    } else {
      var first, others := lines[0], lines[1..];
      assert first in lines && lines == [first] + others;
      UnlinesFirst(first, others);
      SplitUndoesUnlines(others, rest);
      hide Unlines;
      SplitOneMore(first, Unlines(others), rest);
      assert [first] + (others + SplitLines(rest)) == lines + SplitLines(rest);
    }
  }

  lemma SplitOneMore(line: string, text: string, rest: string)
    requires '\n' !in line
    ensures SplitLines(line + "\n" + text + rest) == [line] + SplitLines(text + rest)
  {
    hide SplitLines;
    assert line + "\n" + text + rest == line + "\n" + (text + rest);
    SplitFirst(line, text + rest);
  }

  /** What follows a newline splits on its own, even after a text that is several lines. */
  lemma {:induction false} SplitAfterNewline(s: string, rest: string)
    ensures SplitLines(s + "\n" + rest) == SplitLines(s + "\n") + SplitLines(rest)
    decreases |s|
  {
    hide SplitLines;
    var e := LineEnd(s);
    if e < |s| {
      var tail := s[e + 1..];
      SplitAfterNewline(tail, rest);
      assert s + "\n" + rest == s[..e] + "\n" + (tail + "\n" + rest);
      SplitFirst(s[..e], tail + "\n" + rest);
      assert s + "\n" == s[..e] + "\n" + (tail + "\n");
      SplitFirst(s[..e], tail + "\n");
    } else {
      assert s[..e] == s;
      SplitFirst(s, rest);
      SplitFirst(s, "");
      assert s + "\n" + "" == s + "\n";
      NothingSplits();
    }
  }

  lemma NothingSplits()
    ensures SplitLines("") == []
  {
  }

  lemma {:induction false} SplitLinesAreLines(s: string, l: string)
    requires l in SplitLines(s)
    ensures '\n' !in l
    decreases |s|
  {
    var e := LineEnd(s);
    if l != s[..e] {
      SplitLinesAreLines(s[e + 1..], l);
    }
  }

  /** Position of the first '=', or the length. */
  function FirstEquals(s: string): (p: nat)
    ensures p <= |s| && '=' !in s[..p] && (p < |s| ==> s[p] == '=')
  {
    if s == "" || s[0] == '=' then 0 else 1 + FirstEquals(s[1..])
  }

  /** A key and value from one line of the unit, if it is an Environment line. */
  function ReadLine(line: string): Option<(string, string)> {
    if |line| <= |ENVIRONMENT| || !(ENVIRONMENT <= line) || line[|line| - 1] != '"' then None
    else
      match Unescape(line[|ENVIRONMENT|..|line| - 1])
      case None => None
      case Some(text) =>
        var p := FirstEquals(text);
        if p == |text| then None else Some((text[..p], text[p + 1..]))
  }

  /** All assignments; a later one of the same key wins. */
  function ReadLines(lines: seq<string>): (env: map<string, string>)
    ensures forall k :: k in env ==> '=' !in k
  {
    if lines == [] then map[]
    else
      var before := ReadLines(lines[..|lines| - 1]);
      match ReadLine(lines[|lines| - 1])
      case None => before
      case Some(kv) => before[kv.0 := kv.1]
  }

  function ReadEnvironment(text: string): map<string, string> {
    ReadLines(SplitLines(text))
  }

  lemma {:induction false} KeyEndsAtEquals(key: string, value: string)
    requires '=' !in key
    ensures FirstEquals(key + "=" + value) == |key|
  {
    if key != "" {
      assert (key + "=" + value)[1..] == key[1..] + "=" + value;
      KeyEndsAtEquals(key[1..], value);
    }
  }

  lemma EnvLineReads(key: string, value: string)
    requires '=' !in key
    ensures ReadLine(EnvLine(key, value)) == Some((key, value))
  {
    var text, line := key + "=" + value, EnvLine(key, value);
    TwoPassesAreOne(text);
    UnescapeUndoes(text);
    assert line[|ENVIRONMENT|..|line| - 1] == SystemdEscape(text);
    KeyEndsAtEquals(key, value);
    assert text[..|key|] == key && text[|key| + 1..] == value;
  }

  /** Lines the reader ignores. */
  lemma {:induction false} SilentLines(before: seq<string>, lines: seq<string>)
    requires forall l :: l in lines ==> ReadLine(l) == None
    ensures ReadLines(before + lines) == ReadLines(before)
  {
    if lines == [] {
      assert before + lines == before;
    } else {
      var all, n := before + lines, |lines|;
      assert all[..|all| - 1] == before + lines[..n - 1] && all[|all| - 1] == lines[n - 1];
      SilentLines(before, lines[..n - 1]);
    }
  }

  predicate OneLine(l: string) {
    '\n' !in l
  }

  lemma UnitSection()
    ensures OneLine("[Unit]") && OneLine("Description=Enclout Local Agent")
  {
  }

  lemma UnitOrder()
    ensures OneLine("After=network-online.target") && OneLine("") && OneLine("[Service]") && OneLine("Type=simple")
  {
  }

  lemma RestartRules()
    ensures OneLine("Restart=always") && OneLine("RestartSec=2")
  {
  }

  lemma InstallSection()
    ensures OneLine("") && OneLine("[Install]") && OneLine("WantedBy=default.target")
  {
  }

  /** The fixed lines are one line each, and not assignments. */
  lemma FixedLine(l: string)
    requires l in TOP + RESTART + FOOTER
    ensures '\n' !in l && ReadLine(l) == None
  {
    assert OneLine(l) by {
      hide OneLine;
      UnitSection();
      UnitOrder();
      RestartRules();
      InstallSection();
    }
    assert TOP[0][0] == '[' && TOP[1][0] == 'D' && TOP[2][0] == 'A' && TOP[3] == "" && TOP[4][0] == '[' && TOP[5][0] == 'T';
    assert RESTART[0][0] == 'R' && RESTART[1][0] == 'R';
    assert FOOTER[0] == "" && FOOTER[1][0] == '[' && FOOTER[2][0] == 'W';
    assert ENVIRONMENT[0] == 'E';
    assert l == "" || l[0] != 'E';
  }

  lemma {:induction false} EnvLinesRead(before: seq<string>, env: map<string, string>, keys: seq<string>, n: nat)
    requires n <= |keys| && (forall k :: k in keys ==> k in env && '=' !in k)
    ensures ReadLines(before + EnvLines(env, keys)[..n]) == ReadLines(before) + map k | k in keys[..n] :: env[k]
  {
    hide ReadLine, EnvLine, ReadLines;
    var lines := EnvLines(env, keys);
    if n == 0 {
      assert before + lines[..0] == before;
      assert keys[..0] == [];
    } else {
      EnvLinesRead(before, env, keys, n - 1);
      var key := keys[n - 1];
      assert key in keys;
      EnvLineReads(key, env[key]);
      LastLineRead(before + lines[..n - 1], EnvLine(key, env[key]), key, env[key]);
      assert before + lines[..n] == before + lines[..n - 1] + [EnvLine(key, env[key])];
      hide EnvLines, ReadLines;
      OneMoreKey(env, keys, n);
      MergeOne(ReadLines(before), map k | k in keys[..n - 1] :: env[k], key, env[key]);
    }
  }

  lemma MergeOne(a: map<string, string>, b: map<string, string>, key: string, value: string)
    ensures (a + b)[key := value] == a + b[key := value]
  {
  }

  lemma LastLineRead(before: seq<string>, line: string, key: string, value: string)
    requires ReadLine(line) == Some((key, value))
    ensures ReadLines(before + [line]) == ReadLines(before)[key := value]
  {
    hide ReadLine;
    assert (before + [line])[..|before|] == before;
  }

  lemma OneMoreKey(env: map<string, string>, keys: seq<string>, n: nat)
    requires 0 < n <= |keys| && forall k :: k in keys ==> k in env
    ensures keys[n - 1] in keys
    ensures (map k | k in keys[..n] :: env[k]) == (map k | k in keys[..n - 1] :: env[k])[keys[n - 1] := env[keys[n - 1]]]
  {
    assert keys[..n] == keys[..n - 1] + [keys[n - 1]];
  }

  /** Keys and values that can be told from a unit file. */
  predicate Writable(key: string, value: string) {
    '=' !in key && '\n' !in key && '\n' !in value
  }

  lemma EnvLineIsOneLine(key: string, value: string)
    requires Writable(key, value)
    ensures '\n' !in EnvLine(key, value)
  {
    var text := key + "=" + value;
    TwoPassesAreOne(text);
    EscapeKeepsLines(text);
  }

  /** What a line reader reads is writable, whatever the text. */
  lemma {:induction false} UnescapeKeepsLines(s: string)
    requires '\n' !in s && Unescape(s).Some?
    ensures '\n' !in Unescape(s).value
    decreases |s|
  {
    if s != "" { UnescapeKeepsLines(s[if s[0] == '\\' then 2 else 1..]); }
  }

  lemma ReadLineIsWritable(line: string)
    requires '\n' !in line && ReadLine(line).Some?
    ensures Writable(ReadLine(line).value.0, ReadLine(line).value.1)
  {
    UnescapeKeepsLines(line[|ENVIRONMENT|..|line| - 1]);
  }

  lemma {:induction false} ReadIsWritable(lines: seq<string>)
    requires forall l :: l in lines ==> '\n' !in l
    ensures forall k :: k in ReadLines(lines) ==> Writable(k, ReadLines(lines)[k])
  {
    hide ReadLine, Writable;
    if lines != [] {
      ReadIsWritable(lines[..|lines| - 1]);
      if ReadLine(lines[|lines| - 1]).Some? { ReadLineIsWritable(lines[|lines| - 1]); }
    }
  }

  /** The assignments that the path of the binary brings in, if it is several lines. */
  function Injected(binary: string): map<string, string> {
    ReadEnvironment(ExecStart(binary) + "\n")
  }

  /** A path on one line brings in none. */
  lemma OneLinePathInjectsNothing(binary: string)
    requires '\n' !in binary
    ensures Injected(binary) == map[]
  {
    var line := ExecStart(binary);
    assert OneLine("ExecStart=");
    SplitFirst(line, "");
    NothingSplits();
    assert line + "\n" + "" == line + "\n";
    assert SplitLines(line + "\n") == [line];
    assert line[1] == 'x' && ENVIRONMENT[1] == 'n';
    assert ReadLine(line) == None;
    SilentLines([], [line]);
    assert [] + [line] == [line];
  }

  /** The path a line reader finds: that of the first ExecStart line. */
  function ReadExecStart(lines: seq<string>): Option<string> {
    if lines == [] then None
    else if "ExecStart=" <= lines[0] then Some(lines[0][10..])
    else ReadExecStart(lines[1..])
  }

  /** The lines around path and environment. */
  lemma FixedLinesAre()
    ensures TOP == ["[Unit]", "Description=Enclout Local Agent", "After=network-online.target", "", "[Service]", "Type=simple"]
    ensures RESTART == ["Restart=always", "RestartSec=2"]
    ensures FOOTER == ["", "[Install]", "WantedBy=default.target"]
  {
  }

  /** A unit with a one-line path and a writable environment is these lines; a line reader finds
      the path of the binary. */
  lemma UnitIs(binary: string, env: map<string, string>)
    requires '\n' !in binary && forall k :: k in env ==> Writable(k, env[k])
    ensures var lines := SplitLines(UnitText(binary, env));
            && lines == TOP + (["ExecStart=" + binary] + (RESTART + EnvLines(env, SortedListing(env.Keys)) + FOOTER))
            && ReadExecStart(lines) == Some(binary)
  {
    UnitLinesAre(binary, env);
    var tail := RESTART + EnvLines(env, SortedListing(env.Keys)) + FOOTER;
    FindsExecStart(binary, tail);
    assert ExecStart(binary) == "ExecStart=" + binary;
    hide *;
  }

  lemma UnitLinesAre(binary: string, env: map<string, string>)
    requires '\n' !in binary && forall k :: k in env ==> Writable(k, env[k])
    ensures SplitLines(UnitText(binary, env))
         == TOP + ([ExecStart(binary)] + (RESTART + EnvLines(env, SortedListing(env.Keys)) + FOOTER))
  {
    OneLinePath(binary);
    hide SplitLines, EnvLines, Writable, TOP, RESTART, FOOTER, ExecStart;
    var envLines := EnvLines(env, SortedListing(env.Keys));
    UnitLines(binary, env, SortedListing(env.Keys));
    FiveParts(TOP, [ExecStart(binary)], RESTART, envLines, FOOTER);
  }

  lemma FiveParts(a: seq<string>, b: seq<string>, c: seq<string>, d: seq<string>, e: seq<string>)
    ensures a + b + c + d + e == a + (b + (c + d + e))
  {
  }

  lemma OneLinePath(binary: string)
    requires '\n' !in binary
    ensures SplitLines(ExecStart(binary) + "\n") == [ExecStart(binary)]
  {
    assert OneLine("ExecStart=");
    SplitFirst(ExecStart(binary), "");
    NothingSplits();
    assert ExecStart(binary) + "\n" + "" == ExecStart(binary) + "\n";
  }

  lemma FindsExecStart(binary: string, tail: seq<string>)
    ensures ReadExecStart(TOP + ([ExecStart(binary)] + tail)) == Some(binary)
  {
    hide ReadExecStart;
    var lines := TOP + ([ExecStart(binary)] + tail);
    assert forall i :: 0 <= i < 6 ==> lines[i] == TOP[i];
    assert forall i :: 0 <= i < 6 ==> TOP[i] == "" || TOP[i][0] != 'E';
    NotYetFound(lines, 6);
    assert lines[6..] == [ExecStart(binary)] + tail;
    FoundHere(binary, tail);
  }

  lemma FoundHere(binary: string, tail: seq<string>)
    ensures ReadExecStart([ExecStart(binary)] + tail) == Some(binary)
  {
    assert "ExecStart=" <= ExecStart(binary) && ExecStart(binary)[10..] == binary;
  }

  lemma {:induction false} NotYetFound(lines: seq<string>, n: nat)
    requires n <= |lines| && forall i :: 0 <= i < n ==> lines[i] == "" || lines[i][0] != 'E'
    ensures ReadExecStart(lines) == ReadExecStart(lines[n..])
  {
    if n == 0 {
      assert lines[0..] == lines;
    } else {
      assert !("ExecStart=" <= lines[0]);
      NotYetFound(lines[1..], n - 1);
      assert lines[1..][n - 1..] == lines[n..];
    }
  }

  /** The lines of a unit whose environment is writable. */
  lemma UnitLines(binary: string, env: map<string, string>, keys: seq<string>)
    requires forall k :: k in keys ==> k in env && Writable(k, env[k])
    ensures SplitLines(Unlines(Header(binary) + EnvLines(env, keys) + FOOTER))
         == TOP + SplitLines(ExecStart(binary) + "\n") + RESTART + EnvLines(env, keys) + FOOTER
  {
    hide SplitLines, Unlines, EnvLine, TOP, RESTART, FOOTER, Writable;
    var x, tail := ExecStart(binary), RESTART + EnvLines(env, keys) + FOOTER;
    assert Header(binary) + EnvLines(env, keys) + FOOTER == TOP + ([x] + tail);
    hide ExecStart;
    UnlinesConcat(TOP, [x] + tail);
    UnlinesFirst(x, tail);
    forall l | l in TOP + RESTART + FOOTER ensures '\n' !in l { FixedLine(l); }
    forall l | l in tail ensures '\n' !in l {
      if l in EnvLines(env, keys) {
        var i :| 0 <= i < |keys| && EnvLines(env, keys)[i] == l;
        assert keys[i] in keys;
        EnvLineIsOneLine(keys[i], env[keys[i]]);
      }
    }
    SplitUndoesUnlines(TOP, x + "\n" + Unlines(tail));
    SplitAfterNewline(x, Unlines(tail));
    SplitUndoesUnlines(tail, "");
    NothingSplits();
    assert Unlines(tail) + "" == Unlines(tail);
  }

  lemma UnlinesFirst(line: string, lines: seq<string>)
    ensures Unlines([line] + lines) == line + "\n" + Unlines(lines)
  {
    assert ([line] + lines)[1..] == lines;
  }

  /** All lines of such a unit together give the path's assignments, overridden by exactly the
      environment. */
  lemma UnitLinesRead(binary: string, env: map<string, string>, keys: seq<string>)
    requires (forall k :: k in keys <==> k in env) && (forall k :: k in env ==> '=' !in k)
    ensures ReadLines(TOP + SplitLines(ExecStart(binary) + "\n") + RESTART + EnvLines(env, keys) + FOOTER)
         == Injected(binary) + env
  {
    hide ReadLine, EnvLine, ReadLines, SplitLines, TOP, RESTART, FOOTER, ExecStart;
    var lines, pieces := EnvLines(env, keys), SplitLines(ExecStart(binary) + "\n");
    forall l | l in TOP + RESTART + FOOTER ensures ReadLine(l) == None { FixedLine(l); }
    SilentFirst(TOP, pieces);
    SilentLines(TOP + pieces, RESTART);
    EnvLinesRead(TOP + pieces + RESTART, env, keys, |keys|);
    assert lines[..|keys|] == lines && keys[..|keys|] == keys;
    SilentLines(TOP + pieces + RESTART + lines, FOOTER);
    assert (map k | k in keys :: env[k]) == env;
  }

  lemma {:induction false} SilentFirst(silent: seq<string>, lines: seq<string>)
    requires forall l :: l in silent ==> ReadLine(l) == None
    ensures ReadLines(silent + lines) == ReadLines(lines)
  {
    hide ReadLine;
    if lines == [] {
      SilentLines([], silent);
      assert [] + silent == silent && silent + lines == silent;
    } else {
      SilentFirst(silent, lines[..|lines| - 1]);
      var all := silent + lines;
      assert all[..|all| - 1] == silent + lines[..|lines| - 1] && all[|all| - 1] == lines[|lines| - 1];
    }
  }

  /** The round trip, for every configuration: reading the unit gives back exactly the
      environment if and only if no key contains '=' or a newline, no value contains a newline,
      and the path of the binary brings in no other variable. */
  lemma EnvironmentRoundTrip(binary: string, env: map<string, string>)
    ensures ReadEnvironment(UnitText(binary, env)) == env
            <==> (forall k :: k in env ==> Writable(k, env[k])) && Injected(binary).Keys <= env.Keys
  {
    hide ReadEnvironment, UnitText, Writable, Injected;
    ReadEnvironmentIsWritable(UnitText(binary, env));
    if forall k :: k in env ==> Writable(k, env[k]) {
      WritableUnitReads(binary, env);
      MergeIsEnv(Injected(binary), env);
    }
  }

  lemma ReadEnvironmentIsWritable(text: string)
    ensures forall k :: k in ReadEnvironment(text) ==> Writable(k, ReadEnvironment(text)[k])
  {
    hide SplitLines, ReadLines, Writable;
    forall l | l in SplitLines(text) ensures '\n' !in l { SplitLinesAreLines(text, l); }
    ReadIsWritable(SplitLines(text));
  }

  lemma WritableUnitReads(binary: string, env: map<string, string>)
    requires forall k :: k in env ==> Writable(k, env[k])
    ensures ReadEnvironment(UnitText(binary, env)) == Injected(binary) + env
  {
    hide ReadLines, EnvLines, Header, SplitLines, Unlines, Writable, Injected;
    var keys := SortedListing(env.Keys);
    UnitLines(binary, env, keys);
    WritableKeys(env);
    UnitLinesRead(binary, env, keys);
  }

  lemma MergeIsEnv(injected: map<string, string>, env: map<string, string>)
    ensures injected + env == env <==> injected.Keys <= env.Keys
  {
    if injected.Keys <= env.Keys {
      assert injected + env == env;
    } else {
      var k :| k in injected && k !in env;
      assert k in injected + env;
    }
  }

  lemma WritableKeys(env: map<string, string>)
    requires forall k :: k in env ==> Writable(k, env[k])
    ensures forall k :: k in env ==> '=' !in k
  {
  }
}
