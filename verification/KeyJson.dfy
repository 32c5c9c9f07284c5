/**
 * The secret-keys file written for the new device (host-utility/src/migrate_keys.rs), against a
 * reader of the JSON grammar: whitespace and structure (section 2 of RFC 8259), objects (4),
 * arrays (5) and strings with their two-character escapes (7). Numbers, literals and `\u` escapes,
 * which the writer never produces, are not read.
 */
module KeyJson {
  import opened Prelude
  import opened Migration

  datatype Json = Str(text: string) | Arr(items: seq<Json>) | Obj(members: seq<(string, Json)>)

  // ---------------------------------------------------------------------------
  // The reader
  // ---------------------------------------------------------------------------

  function SkipSpace(s: string): (r: string)
    ensures |r| <= |s|
  {
    if s != "" && (s[0] == ' ' || s[0] == '\t' || s[0] == '\n' || s[0] == '\r') then SkipSpace(s[1..]) else s
  }

  function Unescaped(c: char): Option<char> {
    if c == '"' || c == '\\' || c == '/' then Some(c)
    else if c == 'b' then Some(8 as char)
    else if c == 'f' then Some(12 as char)
    else if c == 'n' then Some('\n')
    else if c == 'r' then Some('\r')
    else if c == 't' then Some('\t')
    else None
  }

  /** The rest of a string whose opening quote has been read, and what follows its closing quote. */
  function ScanString(s: string, read: string): (r: Option<(string, string)>)
    ensures r.Some? ==> |r.value.1| < |s|
    decreases |s|
  {
    if s == "" then None
    else if s[0] == '"' then Some((read, s[1..]))
    else if s[0] == '\\' then
      if |s| < 2 || Unescaped(s[1]).None? then None else ScanString(s[2..], read + [Unescaped(s[1]).value])
    else if s[0] < ' ' then None
    else ScanString(s[1..], read + [s[0]])
  }

  function ParseString(s: string): (r: Option<(string, string)>)
    ensures r.Some? ==> |r.value.1| < |s|
  {
    if s != "" && s[0] == '"' then ScanString(s[1..], "") else None
  }

  function ParseValue(s: string): (r: Option<(Json, string)>)
    ensures r.Some? ==> |r.value.1| < |s|
    decreases |s|, 1
  {
    var t := SkipSpace(s);
    if t == "" then None
    else if t[0] == '"' then
      var r := ParseString(t);
      if r.None? then None else Some((Str(r.value.0), r.value.1))
    else if t[0] == '[' then
      var u := SkipSpace(t[1..]);
      if u != "" && u[0] == ']' then Some((Arr([]), u[1..]))
      else
        var r := ParseItems(t[1..], []);
        if r.None? then None else Some((Arr(r.value.0), r.value.1))
    else if t[0] == '{' then
      var u := SkipSpace(t[1..]);
      if u != "" && u[0] == '}' then Some((Obj([]), u[1..]))
      else
        var r := ParseMembers(t[1..], []);
        if r.None? then None else Some((Obj(r.value.0), r.value.1))
    else None
  }

  function ParseItems(s: string, read: seq<Json>): (r: Option<(seq<Json>, string)>)
    ensures r.Some? ==> |r.value.1| < |s|
    decreases |s|, 2
  {
    var v := ParseValue(s);
    if v.None? then None
    else
      var t := SkipSpace(v.value.1);
      if t == "" then None
      else if t[0] == ',' then ParseItems(t[1..], read + [v.value.0])
      else if t[0] == ']' then Some((read + [v.value.0], t[1..]))
      else None
  }

  function ParseMembers(s: string, read: seq<(string, Json)>): (r: Option<(seq<(string, Json)>, string)>)
    ensures r.Some? ==> |r.value.1| < |s|
    decreases |s|, 2
  {
    var k := ParseString(SkipSpace(s));
    if k.None? then None
    else
      var c := SkipSpace(k.value.1);
      if c == "" || c[0] != ':' then None
      else
        var v := ParseValue(c[1..]);
        if v.None? then None
        else
          var t := SkipSpace(v.value.1);
          var members := read + [(k.value.0, v.value.0)];
          if t == "" then None
          else if t[0] == ',' then ParseMembers(t[1..], members)
          else if t[0] == '}' then Some((members, t[1..]))
          else None
  }

  /** A JSON text is one value with nothing but whitespace after it. */
  function ParseText(s: string): Option<Json> {
    var v := ParseValue(s);
    if v.Some? && SkipSpace(v.value.1) == "" then Some(v.value.0) else None
  }

  // ---------------------------------------------------------------------------
  // The writer
  // ---------------------------------------------------------------------------

  function EntryText(a: RoleAssignment): string {
    "{\"name\":\"" + DeviceAlias(a.role) + "\",\"value\":\"" + a.secretValue + "\"}"
  }

  /** The entries, separated by commas. */
  function EntriesText(assignments: seq<RoleAssignment>): string {
    if assignments == [] then ""
    else if |assignments| == 1 then EntryText(assignments[0])
    else EntryText(assignments[0]) + "," + EntriesText(assignments[1..])
  }

  function SecretKeysText(assignments: seq<RoleAssignment>): string {
    "[" + EntriesText(assignments) + "]"
  }

  lemma {:induction false} EntriesSnoc(assignments: seq<RoleAssignment>, a: RoleAssignment)
    ensures EntriesText(assignments + [a]) ==
              (if assignments == [] then EntryText(a) else EntriesText(assignments) + "," + EntryText(a))
  {
    if assignments == [] {
      assert assignments + [a] == [a];
    } else {
      assert (assignments + [a])[1..] == assignments[1..] + [a];
      EntriesSnoc(assignments[1..], a);
      if |assignments| > 1 {
        Assoc(EntryText(assignments[0]) + ",", EntriesText(assignments[1..]), ",", EntryText(a));
      }
    }
  }

  lemma Assoc(a: string, b: string, c: string, d: string)
    ensures a + (b + c + d) == a + b + c + d
  {
  }

  lemma Pieces(s: string, a: string, b: string, c: string, d: string, e: string)
    ensures s + a + b + c + d + e == s + (a + b + c + d + e)
  {
  }

  /** The five pieces pushed for entry `i` extend the text by that entry. */
  lemma EntryPushed(assignments: seq<RoleAssignment>, i: nat, start: string)
    requires i < |assignments|
    requires start == if i > 0 then "[" + EntriesText(assignments[..i]) + "," else "[" + EntriesText(assignments[..i])
    ensures start + "{\"name\":\"" + DeviceAlias(assignments[i].role) + "\",\"value\":\"" + assignments[i].secretValue + "\"}"
         == "[" + EntriesText(assignments[..i + 1])
  {
    var a, done := assignments[i], EntriesText(assignments[..i]);
    Pieces(start, "{\"name\":\"", DeviceAlias(a.role), "\",\"value\":\"", a.secretValue, "\"}");
    EntriesSnoc(assignments[..i], a);
    assert assignments[..i + 1] == assignments[..i] + [a];
    if i > 0 {
      Assoc("[", done, ",", EntryText(a));
    }
  }

  /** `relabeled_secret_keys_json`, growing the buffer piece by piece. */
  method RelabeledSecretKeysJson(assignments: seq<RoleAssignment>) returns (json: string)
    ensures json == SecretKeysText(assignments)
  {
    json := "[";
    for i := 0 to |assignments|
      invariant json == "[" + EntriesText(assignments[..i])
    {
      if i > 0 {
        json := json + ",";
      }
      EntryPushed(assignments, i, json);
      json := json + "{\"name\":\"";
      json := json + DeviceAlias(assignments[i].role);
      json := json + "\",\"value\":\"";
      json := json + assignments[i].secretValue;
      json := json + "\"}";
    }
    assert assignments[..|assignments|] == assignments;
    json := json + "]";
  }

  // ---------------------------------------------------------------------------
  // Reading back what was written
  // ---------------------------------------------------------------------------

  /** Section 7 of RFC 8259: characters that may stand for themselves. */
  predicate Plain(c: char) {
    c != '"' && c != '\\' && c >= ' '
  }

  predicate NeedsNoEscape(s: string) {
    forall c | c in s :: Plain(c)
  }

  lemma {:induction false} PlainReads(s: string, rest: string, read: string)
    requires NeedsNoEscape(s)
    ensures ScanString(s + ("\"" + rest), read) == Some((read + s, rest))
    decreases |s|
  {
    if s == "" {
      assert s + ("\"" + rest) == "\"" + rest && read + s == read;
    } else {
      var whole := s + ("\"" + rest);
      assert whole[0] == s[0] && whole[1..] == s[1..] + ("\"" + rest);
      assert s[0] in s;
      PlainReads(s[1..], rest, read + [s[0]]);
      assert read + [s[0]] + s[1..] == read + s;
    }
  }

  /** A quoted string followed by `rest`. */
  function Quoted(s: string, rest: string): string {
    "\"" + (s + ("\"" + rest))
  }

  lemma QuotedReads(s: string, rest: string)
    requires NeedsNoEscape(s)
    ensures ParseString(Quoted(s, rest)) == Some((s, rest))
    ensures ParseValue(Quoted(s, rest)) == Some((Str(s), rest))
    ensures SkipSpace(Quoted(s, rest)) == Quoted(s, rest)
  {
    assert Quoted(s, rest)[1..] == s + ("\"" + rest);
    PlainReads(s, rest, "");
    assert "" + s == s;
  }

  lemma NotSpace(c: char, rest: string)
    requires c != ' ' && c != '\t' && c != '\n' && c != '\r'
    ensures SkipSpace([c] + rest) == [c] + rest && ([c] + rest)[1..] == rest
  {
  }

  function Member(key: string, value: string, rest: string): string {
    Quoted(key, [':'] + Quoted(value, rest))
  }

  lemma MemberReads(key: string, value: string, last: bool, rest: string, read: seq<(string, Json)>)
    requires NeedsNoEscape(key) && NeedsNoEscape(value)
    ensures ParseMembers(Member(key, value, [if last then '}' else ','] + rest), read) ==
              if last then Some((read + [(key, Str(value))], rest)) else ParseMembers(rest, read + [(key, Str(value))])
  {
    var after := [if last then '}' else ','] + rest;
    QuotedReads(key, [':'] + Quoted(value, after));
    NotSpace(':', Quoted(value, after));
    QuotedReads(value, after);
    NotSpace(if last then '}' else ',', rest);
  }

  /** The text of one entry, taken apart the way it is read. */
  function EntryShape(a: RoleAssignment, rest: string): string {
    ['{'] + Member("name", DeviceAlias(a.role), [','] + Member("value", a.secretValue, ['}'] + rest))
  }

  lemma Nested(a: string, b: string, c: string, d: string, e: string, rest: string)
    ensures a + b + c + d + e + rest == a + (b + (c + (d + (e + rest))))
  {
  }

  lemma OpeningShape(rest: string)
    ensures "{\"name\":\"" + rest == ['{'] + Quoted("name", [':'] + ("\"" + rest))
  {
  }

  lemma MiddleShape(rest: string)
    ensures "\",\"value\":\"" + rest == "\"" + ([','] + Quoted("value", [':'] + ("\"" + rest)))
  {
  }

  lemma ClosingShape(rest: string)
    ensures "\"}" + rest == "\"" + (['}'] + rest)
  {
  }

  lemma EntryTextShape(a: RoleAssignment, rest: string)
    ensures EntryText(a) + rest == EntryShape(a, rest)
  {
    var alias, value := DeviceAlias(a.role), a.secretValue;
    Nested("{\"name\":\"", alias, "\",\"value\":\"", value, "\"}", rest);
    ClosingShape(rest);
    var third := value + ("\"" + (['}'] + rest));
    MiddleShape(third);
    OpeningShape(alias + ("\"" + ([','] + Quoted("value", [':'] + ("\"" + third)))));
  }

  function EntryJson(a: RoleAssignment): Json {
    Obj([("name", Str(DeviceAlias(a.role))), ("value", Str(a.secretValue))])
  }

  lemma ObjectReads(text: string, members: seq<(string, Json)>, rest: string)
    requires text != "" && text[0] == '"' && ParseMembers(text, []) == Some((members, rest))
    ensures ParseValue(['{'] + text) == Some((Obj(members), rest))
  {
  }

  lemma FixedTextsPlain(role: KeyRole)
    ensures NeedsNoEscape("name") && NeedsNoEscape("value") && NeedsNoEscape(DeviceAlias(role))
  {
  }

  /** Reading up to the last member, whatever follows. */
  lemma NameReads(role: KeyRole, tail: string)
    ensures ParseMembers(Member("name", DeviceAlias(role), [','] + tail), []) == ParseMembers(tail, [("name", Str(DeviceAlias(role)))])
  {
    FixedTextsPlain(role);
    MemberReads("name", DeviceAlias(role), false, tail, []);
    assert [] + [("name", Str(DeviceAlias(role)))] == [("name", Str(DeviceAlias(role)))];
  }

  lemma ValueReads(role: KeyRole, value: string, rest: string)
    requires NeedsNoEscape(value)
    ensures ParseMembers(Member("value", value, ['}'] + rest), [("name", Str(DeviceAlias(role)))])
         == Some(([("name", Str(DeviceAlias(role))), ("value", Str(value))], rest))
  {
    FixedTextsPlain(role);
    var name := ("name", Str(DeviceAlias(role)));
    MemberReads("value", value, true, rest, [name]);
    assert [name] + [("value", Str(value))] == [name, ("value", Str(value))];
  }

  lemma EntryReads(a: RoleAssignment, rest: string)
    requires NeedsNoEscape(a.secretValue)
    ensures ParseValue(EntryText(a) + rest) == Some((EntryJson(a), rest))
  {
    EntryTextShape(a, rest);
    var tail := Member("value", a.secretValue, ['}'] + rest);
    NameReads(a.role, tail);
    ValueReads(a.role, a.secretValue, rest);
    ObjectReads(Member("name", DeviceAlias(a.role), [','] + tail), EntryJson(a).members, rest);
  }

  function EntriesJson(assignments: seq<RoleAssignment>): seq<Json> {
    if assignments == [] then [] else [EntryJson(assignments[0])] + EntriesJson(assignments[1..])
  }

  lemma EntriesSplit(assignments: seq<RoleAssignment>)
    requires |assignments| > 1
    ensures EntriesText(assignments) + "]" == EntryText(assignments[0]) + ("," + (EntriesText(assignments[1..]) + "]"))
  {
    Split(EntryText(assignments[0]), ",", EntriesText(assignments[1..]), "]");
  }

  lemma Split(a: string, b: string, c: string, d: string)
    ensures a + b + c + d == a + (b + (c + d))
  {
  }

  lemma Regroup(read: seq<Json>, first: Json, others: seq<Json>)
    ensures read + [first] + others == read + ([first] + others)
  {
  }

  lemma ItemsStep(a: RoleAssignment, more: string, read: seq<Json>)
    requires NeedsNoEscape(a.secretValue)
    ensures ParseItems(EntryText(a) + ("," + more), read) == ParseItems(more, read + [EntryJson(a)])
  {
    EntryReads(a, "," + more);
    NotSpace(',', more);
  }

  lemma {:induction false} EntriesRead(assignments: seq<RoleAssignment>, read: seq<Json>)
    requires assignments != [] && forall a | a in assignments :: NeedsNoEscape(a.secretValue)
    ensures ParseItems(EntriesText(assignments) + "]", read) == Some((read + EntriesJson(assignments), ""))
    decreases |assignments|
  {
    var a, others := assignments[0], assignments[1..];
    if |assignments| == 1 {
      EntryReads(a, "]");
      assert EntriesJson(assignments) == [EntryJson(a)];
    } else {
      EntriesSplit(assignments);
      ItemsStep(a, EntriesText(others) + "]", read);
      EntriesRead(others, read + [EntryJson(a)]);
      Regroup(read, EntryJson(a), EntriesJson(others));
    }
  }

  lemma TextReads(assignments: seq<RoleAssignment>)
    ensures ParseValue(SecretKeysText(assignments)) ==
              if assignments == [] then Some((Arr([]), ""))
              else
                var r := ParseItems(EntriesText(assignments) + "]", []);
                if r.None? then None else Some((Arr(r.value.0), r.value.1))
  {
    var body := EntriesText(assignments) + "]";
    assert SecretKeysText(assignments) == ['['] + body;
    NotSpace('[', body);
    if assignments != [] {
      assert body[0] == '{';
      assert SkipSpace(body) == body;
    }
  }

  // ---------------------------------------------------------------------------
  // A value that needs escaping is never read back as itself
  // ---------------------------------------------------------------------------

  lemma {:induction false} ScanGrows(s: string, read: string)
    ensures var r := ScanString(s, read); r.Some? ==> |read| <= |r.value.0| && r.value.0[..|read|] == read
    decreases |s|
  {
    if s == "" || s[0] == '"' {
    } else if s[0] == '\\' {
      if |s| >= 2 && Unescaped(s[1]).Some? {
        ScanGrows(s[2..], read + [Unescaped(s[1]).value]);
      }
    } else if s[0] >= ' ' {
      ScanGrows(s[1..], read + [s[0]]);
    }
  }

  /** A run of `n` backslashes is read as fewer than `n`. */
  lemma {:induction false} RunShrinks(s: string, n: nat, read: string) returns (i: nat)
    requires 0 < n < |s| && (forall j | 0 <= j < n :: s[j] == '\\') && s[n] != '\\'
    ensures i < n
    ensures var r := ScanString(s, read); r.Some? ==> |read| + i >= |r.value.0| || r.value.0[|read| + i] != '\\'
    decreases n
  {
    i := 0;
    if n == 1 {
      if Unescaped(s[1]).Some? {
        ScanGrows(s[2..], read + [Unescaped(s[1]).value]);
      }
    } else if n == 2 {
      i := 1;
      var more := read + ['\\'];
      assert s[2..][0] == s[2];
      ScanGrows(s[2..][1..], more + [s[2]]);
    } else {
      assert s[2..][n - 2] == s[n];
      i := RunShrinks(s[2..], n - 2, read + ['\\']);
      i := i + 1;
    }
  }

  /** How many backslashes `s` starts with. */
  function LeadingRun(s: string): (n: nat)
    ensures n <= |s| && (forall j | 0 <= j < n :: s[j] == '\\') && (n < |s| ==> s[n] != '\\')
  {
    if s == "" || s[0] != '\\' then 0 else 1 + LeadingRun(s[1..])
  }

  lemma {:induction false} ReadsItselfOnlyIfPlain(s: string, rest: string, read: string)
    requires var r := ScanString(s + ("\"" + rest), read); r.Some? && r.value.0 == read + s
    ensures NeedsNoEscape(s)
    decreases |s|
  {
    if s != "" {
      var whole := s + ("\"" + rest);
      assert whole[0] == s[0];
      if s[0] == '\\' {
        var n := LeadingRun(s);
        assert whole[n] != '\\';
        var i := RunShrinks(whole, n, read);
        assert false;
      }
      assert whole[1..] == s[1..] + ("\"" + rest);
      assert read + [s[0]] + s[1..] == read + s;
      ReadsItselfOnlyIfPlain(s[1..], rest, read + [s[0]]);
      assert forall c | c in s :: c == s[0] || c in s[1..];
    }
  }

  lemma {:induction false} MembersGrow(s: string, read: seq<(string, Json)>)
    ensures var r := ParseMembers(s, read); r.Some? ==> |read| <= |r.value.0| && r.value.0[..|read|] == read
    decreases |s|
  {
    var k := ParseString(SkipSpace(s));
    if k.Some? {
      var c := SkipSpace(k.value.1);
      if c != "" && c[0] == ':' {
        var v := ParseValue(c[1..]);
        if v.Some? {
          var t := SkipSpace(v.value.1);
          if t != "" && t[0] == ',' {
            MembersGrow(t[1..], read + [(k.value.0, v.value.0)]);
          }
        }
      }
    }
  }

  lemma {:induction false} ItemsGrow(s: string, read: seq<Json>)
    ensures var r := ParseItems(s, read);
            r.Some? ==> ParseValue(s).Some? && |read| < |r.value.0| && r.value.0[..|read| + 1] == read + [ParseValue(s).value.0]
    decreases |s|
  {
    var v := ParseValue(s);
    if v.Some? {
      var t := SkipSpace(v.value.1);
      if t != "" && t[0] == ',' {
        ItemsGrow(t[1..], read + [v.value.0]);
        var r := ParseItems(t[1..], read + [v.value.0]);
        if r.Some? {
          assert r.value.0[..|read| + 1] == r.value.0[..|read| + 2][..|read| + 1];
        }
      }
    }
  }

  /** The last member as it is read, whatever its value: the value is what the string scan returns. */
  lemma LastMember(value: string, rest: string, name: (string, Json))
    requires var r := ParseMembers(Member("value", value, ['}'] + rest), [name]);
             r.Some? && r.value.0 == [name, ("value", Str(value))]
    ensures NeedsNoEscape(value)
  {
    var after := ['}'] + rest;
    QuotedReads("value", [':'] + Quoted(value, after));
    NotSpace(':', Quoted(value, after));
    var scanned := ScanString(value + ("\"" + after), "");
    assert Quoted(value, after)[1..] == value + ("\"" + after);
    assert SkipSpace(Quoted(value, after)) == Quoted(value, after);
    assert scanned.Some?;
    var t := SkipSpace(scanned.value.1);
    var members := [name] + [("value", Str(scanned.value.0))];
    if t != "" && t[0] == ',' {
      MembersGrow(t[1..], members);
    }
    assert members[1] == ("value", Str(value));
    assert "" + value == value;
    ReadsItselfOnlyIfPlain(value, after, "");
  }

  lemma ObjectMembers(text: string)
    requires text != "" && text[0] == '"' && ParseValue(['{'] + text).Some?
    ensures ParseMembers(text, []).Some? && ParseValue(['{'] + text).value.0 == Obj(ParseMembers(text, []).value.0)
  {
  }

  lemma EntryReadsOnlyIf(a: RoleAssignment, rest: string)
    requires var r := ParseValue(EntryText(a) + rest); r.Some? && r.value.0 == EntryJson(a)
    ensures NeedsNoEscape(a.secretValue)
  {
    EntryTextShape(a, rest);
    var tail := Member("value", a.secretValue, ['}'] + rest);
    ObjectMembers(Member("name", DeviceAlias(a.role), [','] + tail));
    NameReads(a.role, tail);
    LastMember(a.secretValue, rest, ("name", Str(DeviceAlias(a.role))));
  }

  lemma FirstItem(text: string, read: seq<Json>, first: Json, others: seq<Json>)
    requires var r := ParseItems(text, read); r.Some? && r.value.0 == read + ([first] + others)
    ensures ParseValue(text).Some? && ParseValue(text).value.0 == first
  {
    ItemsGrow(text, read);
    var all := ParseItems(text, read).value.0;
    assert all[|read|] == first;
    assert all[..|read| + 1][|read|] == (read + [ParseValue(text).value.0])[|read|];
  }

  lemma {:induction false} EntriesReadOnlyIf(assignments: seq<RoleAssignment>, read: seq<Json>)
    requires assignments != []
    requires var r := ParseItems(EntriesText(assignments) + "]", read); r.Some? && r.value.0 == read + EntriesJson(assignments)
    ensures forall a | a in assignments :: NeedsNoEscape(a.secretValue)
    decreases |assignments|
  {
    var a, others := assignments[0], assignments[1..];
    FirstItem(EntriesText(assignments) + "]", read, EntryJson(a), EntriesJson(others));
    if |assignments| == 1 {
      EntryReadsOnlyIf(a, "]");
    } else {
      EntriesSplit(assignments);
      EntryReadsOnlyIf(a, "," + (EntriesText(others) + "]"));
      ItemsStep(a, EntriesText(others) + "]", read);
      Regroup(read, EntryJson(a), EntriesJson(others));
      EntriesReadOnlyIf(others, read + [EntryJson(a)]);
      assert forall x | x in assignments :: x == a || x in others;
    }
  }

  /**
   * The written file reads back as the same roles with the same secrets, in order, if and only if
   * no secret needs escaping.
   */
  lemma SecretKeysRoundTrip(assignments: seq<RoleAssignment>)
    ensures ParseText(SecretKeysText(assignments)) == Some(Arr(EntriesJson(assignments))) <==>
              forall a | a in assignments :: NeedsNoEscape(a.secretValue)
  {
    TextReads(assignments);
    if assignments != [] {
      if forall a | a in assignments :: NeedsNoEscape(a.secretValue) {
        EntriesRead(assignments, []);
      }
      assert [] + EntriesJson(assignments) == EntriesJson(assignments);
      if ParseText(SecretKeysText(assignments)) == Some(Arr(EntriesJson(assignments))) {
        EntriesReadOnlyIf(assignments, []);
      }
    }
  }

  // ---------------------------------------------------------------------------
  // The pre-sized buffer
  // ---------------------------------------------------------------------------

  function Capacity(n: nat): nat {
    2 + n * 192
  }

  /** The buffer is never outgrown, so never copied, as long as each secret fits its share. */
  lemma {:induction false} EntriesFit(assignments: seq<RoleAssignment>)
    requires forall a | a in assignments :: |a.secretValue| <= 160
    ensures |EntriesText(assignments)| <= |assignments| * 192
  {
    if assignments != [] {
      assert assignments[0] in assignments;
      EntriesFit(assignments[1..]);
    }
  }

  lemma NeverOutgrown(assignments: seq<RoleAssignment>)
    requires forall a | a in assignments :: |a.secretValue| <= 160
    ensures |SecretKeysText(assignments)| <= Capacity(|assignments|)
  {
    EntriesFit(assignments);
  }
}
