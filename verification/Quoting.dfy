/**
 The credential commands.  A reader following the quoting rules of OpenVPN's management-notes.txt, "Command
 Parsing", recovers exactly what was put in, and from a static-challenge secret both of its parts.
 */
module Quoting {
  import opened Options
  import opened Framing
  import opened Base64

  // ---- writing ----

  function Replaced(s: string, c: char, with: string): string {
    if s == "" then "" else (if s[0] == c then with else [s[0]]) + Replaced(s[1..], c, with)
  }

  function Quote(value: string): string {
    Replaced(Replaced(value, '\\', "\\\\"), '"', "\\\"")
  }

  /** `verb "realm" "value"` */
  function Line(verb: string, realm: string, value: string): string {
    verb + " \"" + Quote(realm) + "\" \"" + Quote(value) + "\""
  }

  /** What `send_credentials` writes to the socket. */
  function Written(realm: string, username: string, secret: string): string {
    Line("username", realm, username) + "\n" + Line("password", realm, secret) + "\n"
  }

  // ---- reading ----

  datatype Mode = Between | Bare | Double | Single

  predicate IsSpace(c: char) {
    c in {' ', '\t', '\n', '\r'}
  }

  /** The lexical analyser: parameters separated by white space, two kinds of quotes, backslash escapes, comments. */
  function Lex(mode: Mode, escaped: bool, current: string, s: string): Option<seq<string>>
    decreases |s|
  {
    if s == "" then
      if escaped || mode in {Double, Single} then None
      else if mode == Bare then Some([current])
      else Some([])
    else
      var c, rest := s[0], s[1..];
      if mode == Between && (c == ';' || c == '#') then Some([])
      else if escaped && c != '\\' && c != '"' && !IsSpace(c) then None
      else if !escaped && c == '\\' && mode != Single then Lex(mode, true, current, rest)
      else match mode
        case Between =>
          if IsSpace(c) then Lex(Between, false, "", rest)
          else if c == '"' && !escaped then Lex(Double, false, "", rest)
          else if c == '\'' && !escaped then Lex(Single, false, "", rest)
          else Lex(Bare, false, [c], rest)
        case Bare =>
          if IsSpace(c) && !escaped then Cons(current, Lex(Between, false, "", rest))
          else Lex(Bare, false, current + [c], rest)
        case Double =>
          if c == '"' && !escaped then Cons(current, Lex(Between, false, "", rest))
          else Lex(Double, false, current + [c], rest)
        case Single =>
          if c == '\'' then Cons(current, Lex(Between, false, "", rest))
          else Lex(Single, false, current + [c], rest)
  }

  function Cons(parameter: string, later: Option<seq<string>>): Option<seq<string>> {
    if later.None? then None else Some([parameter] + later.value)
  }

  function Parameters(line: string): Option<seq<string>> {
    Lex(Between, false, "", line)
  }

  // ---- one character at a time ----

  function Escaped(c: char): string {
    if c == '\\' then "\\\\" else if c == '"' then "\\\"" else [c]
  }

  lemma {:induction false} ReplacedAppend(a: string, b: string, c: char, with: string)
    ensures Replaced(a + b, c, with) == Replaced(a, c, with) + Replaced(b, c, with)
  {
    if a == "" {
      assert a + b == b;
    } else {
      assert (a + b)[1..] == a[1..] + b;
      ReplacedAppend(a[1..], b, c, with);
    }
  }

  lemma QuoteCons(value: string)
    requires value != ""
    ensures Quote(value) == Escaped(value[0]) + Quote(value[1..])
  {
    var c, inner := value[0], Replaced(value[1..], '\\', "\\\\");
    var head := if c == '\\' then "\\\\" else [c];
    ReplacedAppend(head, inner, '"', "\\\"");
    assert Replaced(head, '"', "\\\"") == Escaped(c) by {
      if c == '\\' { assert head[1..] == "\\"; assert head[1..][1..] == ""; } else { assert head[1..] == ""; }
    }
  }

  lemma ReadOne(c: char, current: string, more: string)
    ensures Lex(Double, false, current, Escaped(c) + more) == Lex(Double, false, current + [c], more)
  {
    var s := Escaped(c) + more;
    if c == '\\' || c == '"' {
      assert s[0] == '\\' && s[1..] == [c] + more;
      assert s[1..][1..] == more;
    } else {
      assert s[1..] == more;
    }
  }

  lemma {:induction false} ReadQuoted(current: string, value: string, more: string)
    ensures Lex(Double, false, current, Quote(value) + "\"" + more)
            == Cons(current + value, Lex(Between, false, "", more))
    decreases |value|
  {
    if value == "" {
      assert Quote(value) + "\"" + more == "\"" + more;
      assert ("\"" + more)[1..] == more;
      assert current + value == current;
    } else {
      QuoteCons(value);
      var c, rest := value[0], value[1..];
      hide Quote, Escaped, Lex;
      Grouped(Escaped(c), Quote(rest), "\"", more);
      ReadOne(c, current, Quote(rest) + "\"" + more);
      ReadQuoted(current + [c], rest, more);
      Unconsed(current, value);
    }
  }

  lemma Grouped(a: string, b: string, c: string, d: string)
    ensures a + b + c + d == a + (b + c + d)
  {
  }

  lemma Unconsed(current: string, value: string)
    requires value != ""
    ensures current + [value[0]] + value[1..] == current + value
  {
  }

  predicate Word(verb: string) {
    verb != "" && verb[0] != ';' && verb[0] != '#' && forall k :: 0 <= k < |verb| ==> verb[k] !in {'\\', '"', '\''} && !IsSpace(verb[k])
  }

  lemma {:induction false} ReadBare(current: string, verb: string, more: string)
    requires forall k :: 0 <= k < |verb| ==> verb[k] !in {'\\', '"', '\''} && !IsSpace(verb[k])
    ensures Lex(Bare, false, current, verb + " " + more) == Cons(current + verb, Lex(Between, false, "", more))
    decreases |verb|
  {
    if verb == "" {
      assert verb + " " + more == " " + more;
      assert (" " + more)[1..] == more;
      assert current + verb == current;
    } else {
      var tail := verb[1..] + " " + more;
      assert verb + " " + more == [verb[0]] + tail;
      assert ([verb[0]] + tail)[1..] == tail;
      assert current + [verb[0]] + verb[1..] == current + verb;
      ReadBare(current + [verb[0]], verb[1..], more);
    }
  }

  lemma ReadWord(verb: string, more: string)
    requires Word(verb)
    ensures Parameters(verb + " " + more) == Cons(verb, Lex(Between, false, "", more))
  {
    var tail := verb[1..] + " " + more;
    assert verb + " " + more == [verb[0]] + tail;
    assert ([verb[0]] + tail)[1..] == tail;
    ReadBare([verb[0]], verb[1..], more);
    assert [verb[0]] + verb[1..] == verb;
  }

  lemma ReadQuotedWord(value: string, more: string)
    ensures Lex(Between, false, "", "\"" + Quote(value) + "\"" + more) == Cons(value, Lex(Between, false, "", more))
  {
    var s := "\"" + Quote(value) + "\"" + more;
    assert s[1..] == Quote(value) + "\"" + more;
    ReadQuoted("", value, more);
    assert "" + value == value;
    hide Quote;
  }

  lemma ReadSpace(more: string)
    ensures Lex(Between, false, "", " " + more) == Lex(Between, false, "", more)
  {
    assert (" " + more)[1..] == more;
  }

  /** The peer reads back the three parameters, whatever quotes and backslashes they hold. */
  lemma LineRoundTrip(verb: string, realm: string, value: string)
    requires Word(verb)
    ensures Parameters(Line(verb, realm, value)) == Some([verb, realm, value])
  {
    hide Quote, Lex, Word, Parameters;
    var second := "\"" + Quote(value) + "\"";
    var first := "\"" + Quote(realm) + "\"" + (" " + second);
    assert Line(verb, realm, value) == verb + " " + first;
    ReadWord(verb, first);
    ReadQuotedWord(realm, " " + second);
    ReadSpace(second);
    assert second + "" == second;
    ReadQuotedWord(value, "");
    LexEmpty();
    assert [verb] + ([realm] + ([value] + [])) == [verb, realm, value];
  }

  lemma LexEmpty()
    ensures Lex(Between, false, "", "") == Some([])
  {
  }

  // ---- framing ----

  lemma {:induction false} QuoteFree(value: string)
    ensures Free(Quote(value), '\n') <==> Free(value, '\n')
  {
    if value == "" {
    } else {
      QuoteFree(value[1..]);
      QuoteCons(value);
      FreeAppend(Escaped(value[0]), Quote(value[1..]));
      assert value == [value[0]] + value[1..];
      FreeAppend([value[0]], value[1..]);
      hide Quote;
    }
  }

  lemma FreeAppend(a: string, b: string)
    ensures Free(a + b, '\n') <==> Free(a, '\n') && Free(b, '\n')
  {
    if Free(a + b, '\n') {
      assert forall k :: 0 <= k < |a| ==> (a + b)[k] == a[k];
      assert forall k :: 0 <= k < |b| ==> (a + b)[|a| + k] == b[k];
    }
  }

  lemma LineFree(verb: string, realm: string, value: string)
    requires Free(verb, '\n')
    ensures Free(Line(verb, realm, value), '\n') <==> Free(realm, '\n') && Free(value, '\n')
  {
    QuoteFree(realm);
    QuoteFree(value);
    assert Free(" \"", '\n') && Free("\" \"", '\n') && Free("\"", '\n');
    hide Quote;
    FreeAppend(verb, " \"");
    FreeAppend(verb + " \"", Quote(realm));
    FreeAppend(verb + " \"" + Quote(realm), "\" \"");
    FreeAppend(verb + " \"" + Quote(realm) + "\" \"", Quote(value));
    FreeAppend(verb + " \"" + Quote(realm) + "\" \"" + Quote(value), "\"");
    hide Free;
  }

  /**
   What is written arrives as exactly the two commands if and only if no part holds a newline; and then the peer
   reads back realm, user name and secret.
   */
  lemma CredentialsRoundTrip(realm: string, username: string, secret: string)
    ensures CutLines(Written(realm, username, secret), '\n')
            == Cut([Line("username", realm, username), Line("password", realm, secret)], "")
            <==> Free(realm, '\n') && Free(username, '\n') && Free(secret, '\n')
    ensures Parameters(Line("username", realm, username)) == Some(["username", realm, username])
    ensures Parameters(Line("password", realm, secret)) == Some(["password", realm, secret])
  {
    var first, second := Line("username", realm, username), Line("password", realm, secret);
    LineFree("username", realm, username);
    LineFree("password", realm, secret);
    LineRoundTrip("username", realm, username);
    LineRoundTrip("password", realm, secret);
    hide Line, Parameters;
    TwoLines(first, second);
  }

  lemma TwoLines(first: string, second: string)
    ensures CutLines(first + "\n" + second + "\n", '\n') == Cut([first, second], "")
            <==> Free(first, '\n') && Free(second, '\n')
  {
    var lines := [first, second];
    assert lines[1..] == [second] && lines[1..][1..] == [];
    assert Joined([second], '\n') == second + "\n" + [];
    assert Joined(lines, '\n') == first + "\n" + (second + "\n" + []);
    Grouped(first, "\n", second, "\n");
    assert first + ("\n" + second + "\n") == first + "\n" + (second + "\n" + []) + "";
    CutKeepsAll(first + "\n" + second + "\n", '\n');
    assert lines[0] == first && lines[1] == second;
    assert AllFree(lines, '\n') <==> Free(first, '\n') && Free(second, '\n');
    if AllFree(lines, '\n') {
      CutIsUnique(lines, "", '\n');
    }
  }

  // ---- the static-challenge secret ----

  /** `SCRV1:` and two base64 fields. */
  function Secret(password: seq<Byte>, code: seq<Byte>): string {
    "SCRV1:" + Encode(password) + ":" + Encode(code)
  }

  function ReadSecret(s: string): Option<(seq<Byte>, seq<Byte>)> {
    if !("SCRV1:" <= s) then None
    else
      var body := s[6..];
      var i := Find(body, ':');
      if i == |body| then None
      else
        var (password, code) := (Decode(body[..i]), Decode(body[i + 1..]));
        if password.None? || code.None? then None else Some((password.value, code.value))
  }

  /** Both parts are recovered, whatever bytes they hold. */
  lemma SecretRoundTrip(password: seq<Byte>, code: seq<Byte>)
    ensures ReadSecret(Secret(password, code)) == Some((password, code))
    ensures Free(Secret(password, code), '\n')
  {
    RoundTrip(password);
    RoundTrip(code);
    hide Encode, Decode;
    var body := Encode(password) + [':'] + Encode(code);
    assert Secret(password, code) == "SCRV1:" + body;
    assert ("SCRV1:" + body)[6..] == body;
    FindIn(Encode(password), ':', Encode(code));
    HeadOff(Encode(password), ':', Encode(code));
  }
}
