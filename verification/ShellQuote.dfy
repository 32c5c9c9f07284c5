/**
 * Re-running the current invocation through `sg <group> -c` (host-utility/src/device_access.rs).
 *
 * The inverse of the quoting is the tokenizer of the POSIX Shell Command Language: token
 * recognition (section 2.3), the escape character (2.2.1), single quotes (2.2.2) and quote
 * removal (2.6.7).
 */
module ShellQuote {
  import opened Prelude

  // ---------------------------------------------------------------------------
  // The shell
  // ---------------------------------------------------------------------------

  predicate Blank(c: char) {
    c == ' ' || c == '\t'
  }

  /** Characters to which an unquoted occurrence gives a meaning this tokenizer does not model. */
  predicate Special(c: char) {
    || c == '|' || c == '&' || c == ';' || c == '<' || c == '>' || c == '(' || c == ')' || c == '$'
    || c == '`' || c == '"' || c == '\n' || c == '*' || c == '?' || c == '[' || c == '#' || c == '~' || c == '%'
  }

  function Extend(word: Option<string>, c: char): Option<string> {
    Some((if word.Some? then word.value else "") + [c])
  }

  function Open(word: Option<string>): Option<string> {
    Some(if word.Some? then word.value else "")
  }

  /**
   * The words of a command after quote removal, given the word in progress and whether the
   * scanner is inside single quotes. `None` when the shell would do more than split words.
   */
  function Words(s: string, word: Option<string>, quoted: bool): Option<seq<string>>
    decreases |s|
  {
    if s == "" then
      if quoted then None else Some(if word.Some? then [word.value] else [])
    else if quoted then
      if s[0] == '\'' then Words(s[1..], Open(word), false) else Words(s[1..], Extend(word, s[0]), true)
    else if s[0] == '\'' then Words(s[1..], Open(word), true)
    else if s[0] == '\\' then
      if |s| < 2 then None
      else if s[1] == '\n' then Words(s[2..], word, false)
      else Words(s[2..], Extend(word, s[1]), false)
    else if Blank(s[0]) then
      var rest := Words(s[1..], None, false);
      if rest.None? then None else Some((if word.Some? then [word.value] else []) + rest.value)
    else if Special(s[0]) then None
    else Words(s[1..], Extend(word, s[0]), false)
  }

  function Tokenize(command: string): Option<seq<string>> {
    Words(command, None, false)
  }

  // ---------------------------------------------------------------------------
  // The quoting
  // ---------------------------------------------------------------------------

  predicate SafeChar(c: char) {
    || 'a' <= c <= 'z' || 'A' <= c <= 'Z' || '0' <= c <= '9'
    || c == '-' || c == '_' || c == '.' || c == '/' || c == '=' || c == ':' || c == '@'
  }

  predicate Safe(s: string) {
    s != "" && forall c | c in s :: SafeChar(c)
  }

  /** Each single quote becomes: close, escaped quote, reopen. */
  function Escaped(s: string): string {
    if s == "" then ""
    else (if s[0] == '\'' then "'\\''" else [s[0]]) + Escaped(s[1..])
  }

  function Quote(s: string): string {
    if Safe(s) then s else "'" + Escaped(s) + "'"
  }

  function Join(parts: seq<string>): string {
    if parts == [] then ""
    else if |parts| == 1 then parts[0]
    else parts[0] + " " + Join(parts[1..])
  }

  function QuoteAll(args: seq<string>): seq<string> {
    if args == [] then [] else [Quote(args[0])] + QuoteAll(args[1..])
  }

  predicate HasDevice(args: seq<string>) {
    exists a | a in args :: a == "--device" || StartsWith(a, "--device=")
  }

  function SgReexecCommand(exe: string, args: seq<string>, device: Option<string>): string {
    var parts := [Quote(exe)] + QuoteAll(args);
    Join(if device.Some? && !HasDevice(args) then parts + ["--device", Quote(device.value)] else parts)
  }

  // ---------------------------------------------------------------------------
  // Round trip
  // ---------------------------------------------------------------------------

  function Grow(word: Option<string>, s: string): Option<string> {
    Some((if word.Some? then word.value else "") + s)
  }

  lemma SafeIsPlain(c: char)
    requires SafeChar(c)
    ensures !Blank(c) && !Special(c) && c != '\'' && c != '\\'
  {
  }

  lemma {:induction false} SafeReads(s: string, rest: string, word: Option<string>)
    requires s != "" && forall c | c in s :: SafeChar(c)
    ensures Words(s + rest, word, false) == Words(rest, Grow(word, s), false)
    decreases |s|
  {
    SafeIsPlain(s[0]);
    assert (s + rest)[0] == s[0] && (s + rest)[1..] == s[1..] + rest;
    var next := Extend(word, s[0]);
    if |s| == 1 {
      assert s[1..] + rest == rest && s == [s[0]];
    } else {
      SafeReads(s[1..], rest, next);
      var base := if word.Some? then word.value else "";
      assert base + [s[0]] + s[1..] == base + s;
    }
  }

  /** Inside quotes, the escaped text reads back as itself and the closing quote ends it. */
  lemma {:induction false} EscapedReads(s: string, rest: string, word: string)
    ensures Words(Escaped(s) + "'" + rest, Some(word), true) == Words(rest, Some(word + s), false)
    decreases |s|
  {
    var text := Escaped(s) + "'" + rest;
    if s == "" {
      assert text == "'" + rest && text[1..] == rest && word + s == word;
    } else if s[0] == '\'' {
      var tail := Escaped(s[1..]) + "'" + rest;
      assert text == "'\\''" + tail;
      assert text[1..] == "\\''" + tail && text[1..][2..] == "'" + tail && ("'" + tail)[1..] == tail;
      assert Words(text, Some(word), true) == Words(text[1..], Some(word), false);
      assert Words(text[1..], Some(word), false) == Words("'" + tail, Some(word + "'"), false);
      assert Words("'" + tail, Some(word + "'"), false) == Words(tail, Some(word + "'"), true);
      EscapedReads(s[1..], rest, word + "'");
      assert word + "'" + s[1..] == word + s;
    } else {
      var tail := Escaped(s[1..]) + "'" + rest;
      assert text == [s[0]] + tail && text[1..] == tail;
      EscapedReads(s[1..], rest, word + [s[0]]);
      assert word + [s[0]] + s[1..] == word + s;
    }
  }

  /** A quoted word reads back as itself. */
  lemma QuoteReads(s: string, rest: string)
    ensures Words(Quote(s) + rest, None, false) == Words(rest, Some(s), false)
  {
    if Safe(s) {
      SafeReads(s, rest, None);
      assert "" + s == s;
    } else {
      var text := "'" + Escaped(s) + "'" + rest;
      assert text[0] == '\'' && text[1..] == Escaped(s) + "'" + rest;
      EscapedReads(s, rest, "");
      assert "" + s == s;
    }
  }

  lemma {:induction false} JoinReads(words: seq<string>)
    requires words != []
    ensures Tokenize(Join(QuoteAll(words))) == Some(words)
  {
    var parts := QuoteAll(words);
    QuoteAllLength(words);
    if |words| == 1 {
      QuoteReads(words[0], "");
      assert QuoteAll(words[1..]) == [] && parts == [Quote(words[0])];
      assert Quote(words[0]) + "" == Quote(words[0]);
      assert words == [words[0]];
    } else {
      var tail := Join(QuoteAll(words[1..]));
      QuoteAllLength(words[1..]);
      JoinReads(words[1..]);
      assert parts[1..] == QuoteAll(words[1..]);
      assert Join(parts) == Quote(words[0]) + (" " + tail);
      QuoteReads(words[0], " " + tail);
      assert (" " + tail)[1..] == tail;
      assert words == [words[0]] + words[1..];
    }
  }

  lemma {:induction false} QuoteAllLength(words: seq<string>)
    ensures |QuoteAll(words)| == |words|
  {
    if words != [] {
      QuoteAllLength(words[1..]);
    }
  }

  lemma {:induction false} QuoteAllConcat(xs: seq<string>, ys: seq<string>)
    ensures QuoteAll(xs + ys) == QuoteAll(xs) + QuoteAll(ys)
  {
    if xs == [] {
      assert xs + ys == ys;
    } else {
      assert (xs + ys)[1..] == xs[1..] + ys;
      QuoteAllConcat(xs[1..], ys);
    }
  }

  /** What the re-executed process must receive. */
  function Reinvocation(exe: string, args: seq<string>, device: Option<string>): seq<string> {
    [exe] + args + if device.Some? && !HasDevice(args) then ["--device", device.value] else []
  }

  lemma DeviceFlagIsSafe()
    ensures Quote("--device") == "--device"
  {
    var d := "--device";
    assert |d| == 8;
    forall i | 0 <= i < 8
      ensures SafeChar(d[i])
    {
      assert d[i] == '-' || 'a' <= d[i] <= 'z';
    }
  }

  /** The shell hands the new process exactly the executable, the arguments and, where needed, the device. */
  lemma ReexecRoundTrip(exe: string, args: seq<string>, device: Option<string>)
    ensures Tokenize(SgReexecCommand(exe, args, device)) == Some(Reinvocation(exe, args, device))
    ensures device.None? ==> Tokenize(SgReexecCommand(exe, args, device)) == Some([exe] + args)
  {
    var words := Reinvocation(exe, args, device);
    DeviceFlagIsSafe();
    QuoteAllConcat([exe], args);
    assert QuoteAll([exe]) == [Quote(exe)];
    if device.Some? && !HasDevice(args) {
      var more := ["--device", device.value];
      QuoteAllConcat([exe] + args, more);
      assert more[1..] == [device.value] && QuoteAll(more[1..]) == [Quote(device.value)];
      assert QuoteAll(more) == ["--device", Quote(device.value)];
      assert QuoteAll(words) == [Quote(exe)] + QuoteAll(args) + ["--device", Quote(device.value)];
    } else {
      assert words == [exe] + args;
    }
    JoinReads(words);
  }

  /** Different invocations never become the same command. */
  lemma ReexecInjective(exe: string, args: seq<string>, exe': string, args': seq<string>)
    requires SgReexecCommand(exe, args, None) == SgReexecCommand(exe', args', None)
    ensures exe == exe' && args == args'
  {
    ReexecRoundTrip(exe, args, None);
    ReexecRoundTrip(exe', args', None);
    var w, w' := [exe] + args, [exe'] + args';
    assert w == Reinvocation(exe, args, None) && w' == Reinvocation(exe', args', None);
    assert w[0] == exe && w[1..] == args && w'[0] == exe' && w'[1..] == args';
  }

  /** An explicit `--device` argument is never doubled. */
  lemma DeviceAppendedOnce(exe: string, args: seq<string>, device: string)
    ensures Tokenize(SgReexecCommand(exe, args, Some(device))) ==
              if exists a | a in args :: a == "--device" || (|a| >= 9 && a[..9] == "--device=")
              then Some([exe] + args) else Some([exe] + args + ["--device", device])
  {
    ReexecRoundTrip(exe, args, Some(device));
    assert [exe] + args + [] == [exe] + args;
  }

  // ---------------------------------------------------------------------------
  // The first word is a command
  // ---------------------------------------------------------------------------

  predicate NameChar(c: char, first: bool) {
    'a' <= c <= 'z' || 'A' <= c <= 'Z' || c == '_' || (!first && '0' <= c <= '9')
  }

  predicate IsName(s: string) {
    s != "" && NameChar(s[0], true) && forall c | c in s[1..] :: NameChar(c, false)
  }

  /** An unquoted leading `name=` makes the first token an assignment (section 2.10.2, rule 7). */
  predicate IsAssignment(token: string) {
    exists i | 0 <= i < |token| :: token[i] == '=' && IsName(token[..i])
  }

  /** The quoted executable is read as an assignment exactly when it is one that needs no quotes. */
  lemma AssignmentIff(exe: string)
    ensures IsAssignment(Quote(exe)) <==> Safe(exe) && IsAssignment(exe)
  {
    if !Safe(exe) {
      var token := Quote(exe);
      forall i | 0 <= i < |token|
        ensures !(token[i] == '=' && IsName(token[..i]))
      {
        if i > 0 {
          assert token[..i][0] == '\'';
        }
      }
    }
  }

  /** So an absolute path, which is what the running process reports, is always a command. */
  lemma AbsolutePathIsCommand(exe: string)
    requires exe != "" && exe[0] == '/'
    ensures !IsAssignment(Quote(exe))
  {
    AssignmentIff(exe);
    forall i | 0 <= i < |exe|
      ensures !(exe[i] == '=' && IsName(exe[..i]))
    {
      if i > 0 {
        assert exe[..i][0] == '/';
      }
    }
  }

  /** And `A=b` never is. */
  lemma RelativePathMayAssign()
    ensures IsAssignment(Quote("A=b"))
  {
    var s := "A=b";
    assert SafeChar(s[0]) && SafeChar(s[1]) && SafeChar(s[2]);
    assert s[1] == '=' && s[..1] == "A" && IsName(s[..1]);
    AssignmentIff(s);
  }
}
