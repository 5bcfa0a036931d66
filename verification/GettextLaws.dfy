/**
 What the JavaScript scanner does, in terms of the text alone (scripts/update_translations.py:12-51): what comments,
 quoted texts and bound names hide, what any other character does, and which calls are emitted.
 */
module GettextLaws {
  import opened Text
  import opened GettextScanner
  import opened GettextRoundTrip

  // ----- the grammar of the texts

  /** The inside of a quoted text: no bare quote, and every backslash takes the next character with it. */
  predicate Closed(body: string, quote: char) {
    || body == ""
    || (body[0] == '\\' && |body| >= 2 && Closed(body[2..], quote))
    || (body[0] != '\\' && body[0] != quote && Closed(body[1..], quote))
  }

  predicate NoStarSlash(body: string) {
    forall i :: 0 <= i < |body| - 1 ==> !(body[i] == '*' && body[i + 1] == '/')
  }

  /** A name may begin behind this text. */
  predicate Unbound(text: string, word: char -> bool)
    requires text != ""
  {
    var c := text[|text| - 1];
    !word(c) && c != '$' && c != '.'
  }

  predicate IsQuote(c: char) {
    c == '\'' || c == '"' || c == '`'
  }

  predicate AllSpace(s: string) {
    forall c :: c in s ==> IsSpace(c)
  }

  const NAMES := {"gettext", "ngettext", "pgettext", "npgettext"}
  const PREFIXES := {"", "window.", "django."}

  /** A call of one of the four functions begins here. */
  ghost predicate BeginsCall(s: string) {
    exists prefix, name, blanks ::
      prefix in PREFIXES && name in NAMES && AllSpace(blanks) && IsHead(s, prefix, name, blanks)
  }

  predicate IsHead(s: string, prefix: string, name: string, blanks: string) {
    prefix + name + blanks + "(" <= s
  }

  // ----- lengths

  lemma {:induction false} LineLengthIs(body: string, rest: string)
    requires '\n' !in body && (rest == "" || rest[0] == '\n')
    ensures LineLength(body + rest) == |body|
  {
    if body == "" {
      assert body + rest == rest;
    } else {
      LineLengthIs(body[1..], rest);
      assert (body + rest)[1..] == body[1..] + rest;
    }
  }

  lemma NoStarSlashStep(body: string)
    requires body != ""
    ensures NoStarSlash(body)
       <==> NoStarSlash(body[1..]) && !(|body| >= 2 && body[0] == '*' && body[1] == '/')
  {
    var rest := body[1..];
    if NoStarSlash(body) {
      forall i | 0 <= i < |rest| - 1 ensures !(rest[i] == '*' && rest[i + 1] == '/') {
        assert rest[i] == body[i + 1] && rest[i + 1] == body[i + 2];
      }
    }
    if NoStarSlash(rest) && !(|body| >= 2 && body[0] == '*' && body[1] == '/') {
      forall i | 0 <= i < |body| - 1 ensures !(body[i] == '*' && body[i + 1] == '/') {
        if i > 0 {
          assert body[i] == rest[i - 1] && body[i + 1] == rest[i];
        }
      }
    }
  }

  lemma {:induction false} BlockLengthIs(body: string, rest: string)
    requires NoStarSlash(body)
    ensures BlockLength(body + ("*/" + rest)) == Some(|body| + 2)
  {
    var s := body + ("*/" + rest);
    if body == "" {
      assert s == "*/" + rest;
    } else {
      NoStarSlashStep(body);
      hide NoStarSlash;
      BlockLengthIs(body[1..], rest);
      assert s[1..] == body[1..] + ("*/" + rest);
      assert |body| >= 2 ==> s[1] == body[1];
    }
  }

  lemma {:induction false} QuotedLengthIs(body: string, quote: char, rest: string)
    requires Closed(body, quote) && quote != '\\'
    ensures QuotedLength(body + ([quote] + rest), quote) == Some(|body| + 1)
    decreases |body|
  {
    var s := body + ([quote] + rest);
    if body == "" {
      assert s == [quote] + rest;
    } else if body[0] == '\\' {
      QuotedLengthIs(body[2..], quote, rest);
      assert s[2..] == body[2..] + ([quote] + rest);
    } else {
      QuotedLengthIs(body[1..], quote, rest);
      assert s[1..] == body[1..] + ([quote] + rest);
    }
  }

  /** Conversely, what is matched up to a quote is closed. */
  lemma {:induction false} QuotedIsClosed(s: string, quote: char)
    requires QuotedLength(s, quote).Some? && quote != '\\'
    ensures var n := QuotedLength(s, quote).value;
      Closed(s[..n - 1], quote) && s[n - 1] == quote
    decreases |s|
  {
    var n := QuotedLength(s, quote).value;
    if s[0] != quote {
      var step := if s[0] == '\\' then 2 else 1;
      QuotedIsClosed(s[step..], quote);
      assert s[..n - 1][step..] == s[step..][..n - 1 - step];
    }
  }

  lemma QuotedParts(body: string, quote: char, rest: string)
    ensures var s := [quote] + body + [quote] + rest;
      s[0] == quote && s[1..] == body + ([quote] + rest)
  {
  }

  lemma QuotedIs(body: string, quote: char, rest: string)
    requires Closed(body, quote) && IsQuote(quote)
    ensures Quoted([quote] + body + [quote] + rest, quote) == Some(|body| + 2)
  {
    hide QuotedLength, Closed;
    QuotedParts(body, quote, rest);
    QuotedLengthIs(body, quote, rest);
  }

  // ----- what is hidden

  lemma Skip(text: string, rest: string, free: bool, word: char -> bool)
    requires text != "" && TokenAt(text + rest, free) == Some(Opaque(|text|))
    ensures Calls(text + rest, free, word) == Calls(rest, Unbound(text, word), word)
  {
    hide TokenAt, Calls, CallWith;
    CallsStep(text + rest, free, word);
    assert (text + rest)[|text|..] == rest;
  }

  /** A line comment hides everything up to the end of its line. */
  lemma LineCommentHides(body: string, rest: string, free: bool, word: char -> bool)
    requires '\n' !in body && (rest == "" || rest[0] == '\n')
    ensures Calls("//" + body + rest, free, word) == Calls(rest, Unbound("//" + body, word), word)
  {
    var text := "//" + body;
    LineLengthIs(body, rest);
    assert (text + rest)[2..] == body + rest;
    hide Calls;
    Skip(text, rest, free, word);
  }

  /** A block comment hides everything up to its first end. */
  lemma BlockCommentHides(body: string, rest: string, free: bool, word: char -> bool)
    requires NoStarSlash(body)
    ensures Calls("/*" + body + "*/" + rest, free, word) == Calls(rest, Unbound("/", word), word)
  {
    var text := "/*" + body + "*/";
    BlockLengthIs(body, rest);
    assert (text + rest)[2..] == body + ("*/" + rest);
    hide Calls;
    Skip(text, rest, free, word);
  }

  /** A string or a template literal hides everything up to its closing quote. */
  lemma QuotedTextHides(body: string, quote: char, rest: string, free: bool, word: char -> bool)
    requires Closed(body, quote) && IsQuote(quote)
    ensures Calls([quote] + body + [quote] + rest, free, word) == Calls(rest, Unbound([quote], word), word)
  {
    var text := [quote] + body + [quote];
    QuotedIs(body, quote, rest);
    assert TokenAt(text + rest, free) == Some(Opaque(|text|)) by {
      hide QuotedLength;
    }
    hide Calls, TokenAt;
    Skip(text, rest, free, word);
  }

  // ----- what is passed over

  lemma Pass(c: char, rest: string, free: bool, word: char -> bool)
    requires TokenAt([c] + rest, free) == None
    ensures Calls([c] + rest, free, word) == Calls(rest, Unbound([c], word), word)
  {
    hide TokenAt, Calls, CallWith;
    CallsStep([c] + rest, free, word);
    assert ([c] + rest)[1..] == rest;
  }

  lemma Joined(s: string, prefix: string, name: string, blanks: string, rest: string)
    requires s == prefix + (name + (blanks + ("(" + rest)))
    ensures IsHead(s, prefix, name, blanks)
  {
    assert s == prefix + name + blanks + "(" + rest;
  }

  lemma HeadParts(t: string, f: Function) returns (blanks: string, rest: string)
    requires HeadLength(t, f).Some?
    ensures AllSpace(blanks) && t == f.Name() + (blanks + ("(" + rest))
    ensures HeadLength(t, f).value == |f.Name()| + |blanks| + 1
  {
    var name := f.Name();
    var u := t[|name|..];
    var k := SpaceLength(u);
    SpacesAre(u);
    blanks, rest := u[..k], u[k + 1..];
    assert t == name + u;
    assert u == blanks + ("(" + rest);
  }

  lemma NameOf(f: Function)
    ensures f.Name() in NAMES
  {
  }

  lemma HeadBegins(s: string, f: Function, prefix: string)
    requires prefix in PREFIXES && prefix <= s && HeadLength(s[|prefix|..], f).Some?
    ensures BeginsCall(s)
  {
    var blanks, rest := HeadParts(s[|prefix|..], f);
    hide HeadLength, IsHead, AllSpace;
    assert s == prefix + s[|prefix|..];
    Joined(s, prefix, f.Name(), blanks, rest);
    NameOf(f);
    assert IsHead(s, prefix, f.Name(), blanks);
  }

  lemma {:induction false} SpacesAre(s: string)
    ensures AllSpace(s[..SpaceLength(s)])
  {
    if s != "" && IsSpace(s[0]) {
      SpacesAre(s[1..]);
      assert s[..SpaceLength(s)] == [s[0]] + s[1..][..SpaceLength(s[1..])];
    }
  }

  lemma NamedBegins(s: string, prefix: string)
    requires prefix in PREFIXES && prefix <= s && NamedHead(s[|prefix|..]).Some?
    ensures BeginsCall(s)
  {
    hide BeginsCall, HeadLength;
    var t := s[|prefix|..];
    if HeadLength(t, Gettext).Some? {
      HeadBegins(s, Gettext, prefix);
    } else if HeadLength(t, NGettext).Some? {
      HeadBegins(s, NGettext, prefix);
    } else if HeadLength(t, PGettext).Some? {
      HeadBegins(s, PGettext, prefix);
    } else {
      HeadBegins(s, NPGettext, prefix);
    }
  }

  lemma CallBeginsIf(s: string)
    ensures CallHead(s).Some? ==> BeginsCall(s)
  {
    hide BeginsCall, NamedHead;
    if CallHead(s) == None {
    } else if Qualified(s) && NamedHead(s[7..]).Some? {
      NamedBegins(s, if "window." <= s then "window." else "django.");
    } else {
      assert s[0..] == s;
      NamedBegins(s, "");
    }
  }

  /** Behind a word character, a dollar sign or a dot no call begins: such a name is passed over. */
  lemma BoundCharacterIsPassed(c: char, rest: string, word: char -> bool)
    requires c != '/' && !IsQuote(c)
    ensures Calls([c] + rest, false, word) == Calls(rest, Unbound([c], word), word)
  {
    hide Calls;
    Pass(c, rest, false, word);
  }

  /** Elsewhere a character with which no comment, quoted text or call begins is passed over. */
  lemma FreeCharacterIsPassed(c: char, rest: string, word: char -> bool)
    requires c != '/' && !IsQuote(c) && !BeginsCall([c] + rest)
    ensures Calls([c] + rest, true, word) == Calls(rest, Unbound([c], word), word)
  {
    CallBeginsIf([c] + rest);
    hide Calls, CallHead, BeginsCall;
    Pass(c, rest, true, word);
  }

  ghost predicate ClosesComment(rest: string) {
    exists body, after :: NoStarSlash(body) && rest == "*" + body + "*/" + after
  }

  lemma {:induction false} BlockIsClosed(s: string)
    requires BlockLength(s).Some?
    ensures var n := BlockLength(s).value;
      NoStarSlash(s[..n - 2]) && s[n - 2] == '*' && s[n - 1] == '/'
  {
    var n := BlockLength(s).value;
    if !(s[0] == '*' && s[1] == '/') {
      BlockIsClosed(s[1..]);
      var body := s[..n - 2];
      assert body[1..] == s[1..][..n - 3];
      NoStarSlashStep(body);
    }
  }

  lemma BlockParts(t: string) returns (body: string, after: string)
    requires BlockLength(t).Some?
    ensures NoStarSlash(body) && t == body + ("*/" + after)
  {
    var n := BlockLength(t).value;
    BlockIsClosed(t);
    body, after := t[..n - 2], t[n..];
    hide BlockLength, NoStarSlash;
    assert t[n - 2..n] == "*/";
    assert t == t[..n - 2] + (t[n - 2..n] + t[n..]);
  }

  lemma BlockCloses(rest: string)
    ensures BlockComment("/" + rest).Some? ==> ClosesComment(rest)
  {
    var s := "/" + rest;
    if BlockComment(s).Some? {
      var t := rest[1..];
      assert s[2..] == t && rest[0] == s[1] == '*';
      hide BlockComment, NoStarSlash;
      var body, after := BlockParts(t);
      assert rest == ['*'] + t;
      Closing(rest, body, after);
    }
  }

  lemma Closing(rest: string, body: string, after: string)
    requires NoStarSlash(body) && rest == ['*'] + (body + ("*/" + after))
    ensures ClosesComment(rest)
  {
    hide NoStarSlash;
    assert rest == "*" + body + "*/" + after;
  }

  /** A slash that begins no comment, or one that is not closed, hides nothing. */
  lemma OpenCommentHidesNothing(rest: string, free: bool, word: char -> bool)
    requires !("/" <= rest) && !ClosesComment(rest)
    ensures Calls("/" + rest, free, word) == Calls(rest, Unbound("/", word), word)
  {
    BlockCloses(rest);
    SlashIsNoHead(rest);
    hide Calls, ClosesComment, BlockComment, CallHead;
    Pass('/', rest, free, word);
  }

  lemma SlashIsNoHead(rest: string)
    ensures CallHead("/" + rest) == None
  {
    var s := "/" + rest;
    assert s[0] == '/';
    assert "gettext"[0] == 'g' && "ngettext"[0] == 'n' && "pgettext"[0] == 'p' && "npgettext"[0] == 'n';
    assert "window."[0] == 'w' && "django."[0] == 'd';
  }

  ghost predicate ClosesQuote(rest: string, quote: char) {
    exists body, after :: Closed(body, quote) && rest == body + [quote] + after
  }

  lemma LengthCloses(rest: string, quote: char)
    requires quote != '\\'
    ensures QuotedLength(rest, quote).Some? ==> ClosesQuote(rest, quote)
  {
    if QuotedLength(rest, quote).Some? {
      var n := QuotedLength(rest, quote).value;
      QuotedIsClosed(rest, quote);
      assert rest == rest[..n - 1] + [quote] + rest[n..];
    }
  }

  /** A quote that is never closed hides nothing. */
  lemma OpenQuoteHidesNothing(quote: char, rest: string, free: bool, word: char -> bool)
    requires IsQuote(quote) && !ClosesQuote(rest, quote)
    ensures Calls([quote] + rest, free, word) == Calls(rest, Unbound([quote], word), word)
  {
    LengthCloses(rest, quote);
    QuoteIsNoHead(quote, rest);
    hide Calls, ClosesQuote, QuotedLength, CallHead;
    assert ([quote] + rest)[1..] == rest;
    Pass(quote, rest, free, word);
  }

  lemma QuoteIsNoHead(quote: char, rest: string)
    requires IsQuote(quote)
    ensures CallHead([quote] + rest) == None
  {
    var s := [quote] + rest;
    assert s[0] == quote;
    assert "gettext"[0] == 'g' && "ngettext"[0] == 'n' && "pgettext"[0] == 'p' && "npgettext"[0] == 'n';
    assert "window."[0] == 'w' && "django."[0] == 'd';
  }

  // ----- heads of calls

  lemma {:induction false} SpaceLengthIs(blanks: string, rest: string)
    requires AllSpace(blanks) && (rest == "" || !IsSpace(rest[0]))
    ensures SpaceLength(blanks + rest) == |blanks|
  {
    if blanks == "" {
      assert blanks + rest == rest;
    } else {
      SpaceLengthIs(blanks[1..], rest);
      assert (blanks + rest)[1..] == blanks[1..] + rest;
    }
  }

  function HeadText(f: Function, blanks: string, rest: string): string {
    f.Name() + (blanks + ("(" + rest))
  }

  lemma HeadTextParts(f: Function, blanks: string, rest: string)
    ensures var s := HeadText(f, blanks, rest);
      f.Name() <= s && s[|f.Name()|..] == blanks + ("(" + rest)
    ensures |HeadText(f, blanks, rest)| > |f.Name()| + |blanks|
    ensures HeadText(f, blanks, rest)[|f.Name()| + |blanks|] == '('
  {
    hide Function.Name;
  }

  lemma OtherName(f: Function, g: Function, s: string)
    requires f != g && f.Name() <= s
    ensures !(g.Name() <= s)
  {
    assert f.Name()[0] != g.Name()[0] || f.Name()[1] != g.Name()[1];
    assert s[0] == f.Name()[0] && s[1] == f.Name()[1];
    assert |g.Name()| >= 2;
    hide Function.Name;
  }

  lemma HeadLengthIs(f: Function, g: Function, blanks: string, rest: string)
    requires AllSpace(blanks)
    ensures HeadLength(HeadText(f, blanks, rest), g) == if f == g then Some(|f.Name()| + |blanks| + 1) else None
  {
    hide Function.Name, SpaceLength, HeadText, AllSpace;
    HeadTextParts(f, blanks, rest);
    if f == g {
      SpaceLengthIs(blanks, "(" + rest);
    } else {
      OtherName(f, g, HeadText(f, blanks, rest));
    }
  }

  lemma OnlyHead(s: string, f: Function, n: nat)
    requires 0 < n <= |s| && forall g :: HeadLength(s, g) == if f == g then Some(n) else None
    ensures NamedHead(s) == Some(Head(f, n))
  {
    hide HeadLength;
  }

  lemma NamedHeadIs(f: Function, blanks: string, rest: string)
    requires AllSpace(blanks)
    ensures NamedHead(HeadText(f, blanks, rest)) == Some(Head(f, |f.Name()| + |blanks| + 1))
  {
    hide *;
    var s, n := HeadText(f, blanks, rest), |f.Name()| + |blanks| + 1;
    forall g ensures HeadLength(s, g) == if f == g then Some(n) else None {
      HeadLengthIs(f, g, blanks, rest);
    }
    HeadTextParts(f, blanks, rest);
    OnlyHead(s, f, n);
  }

  lemma LetterStarts(s: string)
    requires s != "" && s[0] != '/' && !IsQuote(s[0])
    ensures TokenAt(s, true) == CallHead(s)
  {
    hide CallHead;
  }

  lemma PlainHead(s: string)
    requires s != "" && s[0] != 'w' && s[0] != 'd'
    ensures CallHead(s) == NamedHead(s)
  {
    hide NamedHead;
    assert "window."[0] == 'w' && "django."[0] == 'd';
  }

  lemma QualifiedHead(prefix: string, t: string, f: Function, n: nat)
    requires (prefix == "window." || prefix == "django.") && NamedHead(t) == Some(Head(f, n))
    ensures CallHead(prefix + t) == Some(Head(f, 7 + n))
  {
    hide NamedHead;
    assert (prefix + t)[7..] == t;
  }

  lemma HeadStart(f: Function, blanks: string, rest: string)
    ensures var t := HeadText(f, blanks, rest);
      t != "" && (t[0] == 'g' || t[0] == 'n' || t[0] == 'p')
  {
    assert HeadText(f, blanks, rest)[0] == f.Name()[0];
  }

  lemma PlainToken(t: string, f: Function, n: nat)
    requires t != "" && (t[0] == 'g' || t[0] == 'n' || t[0] == 'p') && NamedHead(t) == Some(Head(f, n))
    ensures TokenAt(t, true) == Some(Head(f, n))
  {
    hide TokenAt, CallHead, NamedHead;
    PlainHead(t);
    LetterStarts(t);
  }

  lemma QualifiedToken(prefix: string, t: string, f: Function, n: nat)
    requires (prefix == "window." || prefix == "django.") && NamedHead(t) == Some(Head(f, n))
    ensures TokenAt(prefix + t, true) == Some(Head(f, 7 + n))
  {
    hide TokenAt, CallHead, NamedHead;
    QualifiedHead(prefix, t, f, n);
    assert (prefix + t)[0] == prefix[0];
    LetterStarts(prefix + t);
  }

  lemma PrefixedToken(prefix: string, t: string, f: Function, n: nat)
    requires prefix == "" || (|prefix| == 7 && (prefix == "window." || prefix == "django."))
    requires t != "" && (t[0] == 'g' || t[0] == 'n' || t[0] == 'p') && NamedHead(t) == Some(Head(f, n))
    ensures TokenAt(prefix + t, true) == Some(Head(f, |prefix| + n))
  {
    hide *;
    if |prefix| == 0 {
      assert prefix + t == t;
      PlainToken(t, f, n);
    } else {
      QualifiedToken(prefix, t, f, n);
    }
  }

  lemma PrefixCases(prefix: string)
    requires prefix in PREFIXES
    ensures prefix == "" || (|prefix| == 7 && (prefix == "window." || prefix == "django."))
  {
  }

  lemma HeadTokenIs(prefix: string, f: Function, blanks: string, rest: string)
    requires prefix in PREFIXES && AllSpace(blanks)
    ensures TokenAt(prefix + HeadText(f, blanks, rest), true) == Some(Head(f, |prefix| + |f.Name()| + |blanks| + 1))
  {
    hide *;
    PrefixCases(prefix);
    NamedHeadIs(f, blanks, rest);
    HeadStart(f, blanks, rest);
    PrefixedToken(prefix, HeadText(f, blanks, rest), f, |f.Name()| + |blanks| + 1);
  }

  /** A call that is not bound emits what its arguments allow, wherever it stands; the scan goes on in its arguments. */
  lemma FreeHead(prefix: string, f: Function, blanks: string, rest: string, word: char -> bool)
    requires prefix in PREFIXES && AllSpace(blanks)
    ensures Calls(prefix + HeadText(f, blanks, rest), true, word)
         == CallWith(f, rest) + Calls(rest, Unbound("(", word), word)
  {
    hide TokenAt, Calls, CallWith;
    var s := prefix + HeadText(f, blanks, rest);
    var n := |prefix| + |f.Name()| + |blanks| + 1;
    HeadTokenIs(prefix, f, blanks, rest);
    CallsStep(s, true, word);
    HeadEnds(prefix, f, blanks, rest);
  }

  lemma HeadEnds(prefix: string, f: Function, blanks: string, rest: string)
    ensures var s, n := prefix + HeadText(f, blanks, rest), |prefix| + |f.Name()| + |blanks| + 1;
      n <= |s| && s[n..] == rest && s[n - 1] == '('
  {
    hide Function.Name;
    var head := prefix + f.Name() + blanks;
    assert prefix + HeadText(f, blanks, rest) == head + ("(" + rest);
  }

  // ----- arguments

  /** One space character, one comment line with its end, or one closed comment. */
  predicate IsBlank(b: string) {
    || (|b| == 1 && IsSpace(b[0]))
    || (|b| >= 3 && b[..2] == "//" && '\n' !in b[2..|b| - 1] && b[|b| - 1] == '\n')
    || (|b| >= 4 && b[..2] == "/*" && NoStarSlash(b[2..|b| - 2]) && b[|b| - 2..] == "*/")
  }

  predicate AllBlank(pieces: seq<string>) {
    forall b :: b in pieces ==> IsBlank(b)
  }

  function Concat(pieces: seq<string>): string {
    if pieces == [] then "" else pieces[0] + Concat(pieces[1..])
  }

  /** A closed string that holds no template expression. */
  ghost predicate IsStatic(literal: string) {
    && |literal| >= 2 && (literal[0] == '\'' || literal[0] == '"') && literal[|literal| - 1] == literal[0]
    && Closed(literal[1..|literal| - 1], literal[0])
    && forall i :: !StandsAt(literal, "__FLOPPY_TEMPLATE_EXPRESSION__", i)
  }

  datatype Arg = Arg(before: seq<string>, literal: string, after: seq<string>)

  ghost predicate GoodArg(a: Arg) {
    AllBlank(a.before) && IsStatic(a.literal) && AllBlank(a.after)
  }

  ghost predicate GoodArgs(args: seq<Arg>) {
    forall a :: a in args ==> GoodArg(a)
  }

  function ArgText(a: Arg): string {
    Concat(a.before) + (a.literal + Concat(a.after))
  }

  function ArgsText(args: seq<Arg>): string
    requires args != []
  {
    if |args| == 1 then ArgText(args[0]) else ArgText(args[0]) + ("," + ArgsText(args[1..]))
  }

  function Literals(args: seq<Arg>): seq<string> {
    if args == [] then [] else [args[0].literal] + Literals(args[1..])
  }

  lemma SpaceIsBlank(c: char, rest: string)
    requires IsSpace(c)
    ensures TriviaLength([c] + rest) == 1 + TriviaLength(rest)
  {
    assert ([c] + rest)[1..] == rest;
  }

  lemma LineIsBlank(body: string, rest: string)
    requires '\n' !in body
    ensures TriviaLength("//" + body + "\n" + rest) == |body| + 3 + TriviaLength(rest)
  {
    var s := "//" + body + "\n" + rest;
    assert s[2..] == body + ("\n" + rest);
    LineLengthIs(body, "\n" + rest);
    assert s[|body| + 3..] == rest;
    hide LineLength;
  }

  lemma CommentIsBlank(body: string, rest: string)
    requires NoStarSlash(body)
    ensures TriviaLength("/*" + body + "*/" + rest) == |body| + 4 + TriviaLength(rest)
  {
    var s := "/*" + body + "*/" + rest;
    assert s[2..] == body + ("*/" + rest);
    BlockLengthIs(body, rest);
    assert s[|body| + 4..] == rest;
    hide BlockLength, NoStarSlash;
  }

  lemma LineParts(b: string)
    requires |b| >= 3 && b[..2] == "//" && b[|b| - 1] == '\n'
    ensures b == "//" + b[2..|b| - 1] + "\n"
  {
  }

  lemma CommentParts(b: string)
    requires |b| >= 4 && b[..2] == "/*" && b[|b| - 2..] == "*/"
    ensures b == "/*" + b[2..|b| - 2] + "*/"
  {
    assert b == b[..2] + b[2..|b| - 2] + b[|b| - 2..];
  }

  lemma BlankIs(b: string, rest: string)
    requires IsBlank(b)
    ensures TriviaLength(b + rest) == |b| + TriviaLength(rest)
  {
    hide TriviaLength, NoStarSlash, IsSpace;
    if |b| == 1 && IsSpace(b[0]) {
      SpaceIsBlank(b[0], rest);
      assert b == [b[0]];
    } else if |b| >= 3 && b[..2] == "//" && '\n' !in b[2..|b| - 1] && b[|b| - 1] == '\n' {
      hide *;
      LineIsBlank(b[2..|b| - 1], rest);
      LineParts(b);
    } else {
      CommentIsBlank(b[2..|b| - 2], rest);
      hide *;
      CommentParts(b);
    }
  }

  lemma ConcatStep(pieces: seq<string>, rest: string)
    requires pieces != []
    ensures Concat(pieces) + rest == pieces[0] + (Concat(pieces[1..]) + rest)
    ensures |Concat(pieces)| == |pieces[0]| + |Concat(pieces[1..])|
  {
  }

  lemma AllBlankStep(pieces: seq<string>)
    requires AllBlank(pieces) && pieces != []
    ensures IsBlank(pieces[0]) && AllBlank(pieces[1..])
  {
    hide IsBlank;
    assert pieces[0] in pieces;
  }

  lemma NoPieces(rest: string)
    ensures Concat([]) + rest == rest && |Concat([])| == 0
  {
  }

  lemma {:induction false} BlanksAre(pieces: seq<string>, rest: string)
    requires AllBlank(pieces) && (rest == "" || (!IsSpace(rest[0]) && rest[0] != '/'))
    ensures TriviaLength(Concat(pieces) + rest) == |Concat(pieces)|
  {
    hide *;
    if pieces == [] {
      NoPieces(rest);
      NoneIsBlank(rest);
    } else {
      AllBlankStep(pieces);
      ConcatStep(pieces, rest);
      BlankIs(pieces[0], Concat(pieces[1..]) + rest);
      BlanksAre(pieces[1..], rest);
    }
  }

  lemma NoneIsBlank(rest: string)
    requires rest == "" || (!IsSpace(rest[0]) && rest[0] != '/')
    ensures TriviaLength(rest) == 0
  {
  }

  lemma StaticIs(literal: string, rest: string)
    requires IsStatic(literal)
    ensures LiteralLength(literal + rest) == Some(|literal|) && !Dynamic(literal)
    ensures literal != "" && !IsSpace(literal[0]) && literal[0] != '/'
  {
    ContainsIff(literal, DYNAMIC);
    var quote, body := literal[0], literal[1..|literal| - 1];
    assert literal == [quote] + body + [quote];
    QuotedIs(body, quote, rest);
    hide QuotedLength;
  }

  lemma ArgumentIs(a: Arg, c: char, rest: string)
    requires GoodArg(a) && (c == ',' || c == ')')
    ensures Argument(ArgText(a) + ([c] + rest)) == Some((a.literal, |ArgText(a)|))
  {
    hide LiteralLength, TriviaLength, Dynamic, Concat, AllBlank, IsStatic;
    var before, after := Concat(a.before), Concat(a.after);
    var s := ArgText(a) + ([c] + rest);
    var tail := after + ([c] + rest);
    StaticIs(a.literal, tail);
    assert s == before + (a.literal + tail);
    BlanksAre(a.before, a.literal + tail);
    BlanksAre(a.after, [c] + rest);
    assert s[|before|..] == a.literal + tail;
    assert s[|before|..|before| + |a.literal|] == a.literal;
    assert s[|before| + |a.literal|..] == tail;
  }

  lemma {:induction false} LiteralsLength(args: seq<Arg>)
    ensures |Literals(args)| == |args|
  {
    if args != [] {
      LiteralsLength(args[1..]);
    }
  }

  lemma LastArg(a: Arg, plural: bool, rest: string)
    requires GoodArg(a)
    ensures ReadsBack(ArgText(a) + ([if plural then ',' else ')'] + rest), [a.literal], plural)
  {
    hide Argument, ArgText, GoodArg, ReadsBack;
    var c := if plural then ',' else ')';
    var s := ArgText(a) + ([c] + rest);
    ArgumentIs(a, c, rest);
    assert s[|ArgText(a)|..] == [c] + rest;
    LastArgument(a.literal, |ArgText(a)|, s, rest, [a.literal], plural);
  }

  lemma NextArg(a: Arg, literals: seq<string>, plural: bool, tail: string)
    requires GoodArg(a) && literals != [] && ReadsBack(tail, literals, plural)
    ensures ReadsBack(ArgText(a) + ([','] + tail), [a.literal] + literals, plural)
  {
    hide Argument, ArgText, GoodArg, ReadsBack;
    var s := ArgText(a) + ([','] + tail);
    ArgumentIs(a, ',', tail);
    assert s[|ArgText(a)|..] == [','] + tail;
    assert ([a.literal] + literals)[1..] == literals;
    NextArguments(a.literal, |ArgText(a)|, s, tail, [a.literal] + literals, plural);
  }

  lemma ArgsStep(args: seq<Arg>, rest: string)
    requires args != []
    ensures |args| == 1 ==> ArgsText(args) + rest == ArgText(args[0]) + rest && Literals(args) == [args[0].literal]
    ensures |args| > 1 ==> ArgsText(args) + rest == ArgText(args[0]) + ([','] + (ArgsText(args[1..]) + rest))
    ensures Literals(args) == [args[0].literal] + Literals(args[1..]) && |Literals(args)| == 1 + |Literals(args[1..])|
    ensures |args| > 1 ==> Literals(args[1..]) != []
  {
    hide ArgText;
  }

  lemma {:induction false} ArgumentsAre(args: seq<Arg>, plural: bool, rest: string)
    requires args != [] && GoodArgs(args)
    ensures Literals(args) != []
    ensures ReadsBack(ArgsText(args) + ([if plural then ',' else ')'] + rest), Literals(args), plural)
  {
    assert args[0] in args && GoodArg(args[0]) && GoodArgs(args[1..]);
    hide *;
    var tail := [if plural then ',' else ')'] + rest;
    ArgsStep(args, tail);
    if |args| == 1 {
      LastArg(args[0], plural, rest);
    } else {
      ArgumentsAre(args[1..], plural, rest);
      NextArg(args[0], Literals(args[1..]), plural, ArgsText(args[1..]) + tail);
    }
  }

  lemma ReadIsCall(f: Function, s: string, literals: seq<string>)
    requires |literals| == f.Arity() && ReadsBack(s, literals, f.Plural())
    ensures CallWith(f, s) == [CallText(f, literals)]
  {
    hide Arguments, CallText;
  }

  /** A function with static arguments, whatever spaces and comments stand between them, is printed. */
  lemma CallIs(f: Function, args: seq<Arg>, rest: string)
    requires |args| == f.Arity() && GoodArgs(args)
    ensures CallWith(f, ArgsText(args) + ([if f.Plural() then ',' else ')'] + rest)) == [CallText(f, Literals(args))]
  {
    hide CallWith, ArgsText, GoodArgs, ReadsBack, CallText;
    LiteralsLength(args);
    ArgumentsAre(args, f.Plural(), rest);
    ReadIsCall(f, ArgsText(args) + ([if f.Plural() then ',' else ')'] + rest), Literals(args));
  }

  lemma JoinTwo(a: string, b: string)
    ensures Join([a, b], ", ") == a + ", " + b
  {
    assert [a, b][1..] == [b];
  }

  lemma JoinMore(a: string, parts: seq<string>)
    requires parts != []
    ensures Join([a] + parts, ", ") == a + ", " + Join(parts, ", ")
  {
    assert ([a] + parts)[1..] == parts;
  }

  lemma TextOfGettext(a: string)
    ensures CallText(Gettext, [a]) == "gettext(" + a + ");"
  {
    assert "gettext" + "(" == "gettext(";
  }

  lemma TextOfPGettext(a: string, b: string)
    ensures CallText(PGettext, [a, b]) == "pgettext(" + a + ", " + b + ");"
  {
    JoinTwo(a, b);
    hide Join;
    assert "pgettext" + "(" + (a + ", " + b) + ");" == "pgettext(" + a + ", " + b + ");";
  }

  lemma TextOfNGettext(a: string, b: string)
    ensures CallText(NGettext, [a, b]) == "ngettext(" + a + ", " + b + ", 2);"
  {
    JoinTwo(b, "2");
    JoinMore(a, [b, "2"]);
    hide Join;
    assert [a, b] + ["2"] == [a] + [b, "2"];
    assert "ngettext" + "(" + (a + ", " + (b + ", " + "2")) + ");" == "ngettext(" + a + ", " + b + ", 2);";
  }

  lemma TextOfNPGettext(a: string, b: string, c: string)
    ensures CallText(NPGettext, [a, b, c]) == "npgettext(" + a + ", " + b + ", " + c + ", 2);"
  {
    JoinTwo(c, "2");
    JoinMore(b, [c, "2"]);
    JoinMore(a, [b] + [c, "2"]);
    hide Join;
    assert [a, b, c] + ["2"] == [a] + ([b] + [c, "2"]);
    assert "npgettext" + "(" + (a + ", " + (b + ", " + (c + ", " + "2"))) + ");"
        == "npgettext(" + a + ", " + b + ", " + c + ", 2);";
  }

  // ----- names behind a word character

  predicate IsName(name: string, word: char -> bool) {
    forall c :: c in name ==> word(c) && c != '/' && !IsQuote(c)
  }

  /** A whole name behind a word character, a dollar sign or a dot is passed over. */
  lemma {:induction false} BoundNameIsPassed(name: string, rest: string, word: char -> bool)
    requires IsName(name, word)
    ensures Calls(name + rest, false, word) == Calls(rest, false, word)
  {
    hide Calls, IsQuote;
    if name == "" {
      assert name + rest == rest;
    } else {
      assert name[0] in name && forall c :: c in name[1..] ==> c in name;
      BoundCharacterIsPassed(name[0], name[1..] + rest, word);
      assert name + rest == [name[0]] + (name[1..] + rest);
      BoundNameIsPassed(name[1..], rest, word);
    }
  }

  // ----- what stands between the parentheses emits nothing more

  lemma CallStarts(s: string)
    requires BeginsCall(s)
    ensures s != "" && s[0] in {'g', 'n', 'p', 'w', 'd'}
  {
    var prefix, name, blanks :|
      prefix in PREFIXES && name in NAMES && AllSpace(blanks) && IsHead(s, prefix, name, blanks);
    var head := prefix + name + blanks + "(";
    assert s[0] == head[0];
    if prefix == "" {
      assert head[0] == name[0];
    }
  }

  lemma PlainIsPassed(c: char, rest: string, free: bool, word: char -> bool)
    requires c !in {'g', 'n', 'p', 'w', 'd'} && c != '/' && !IsQuote(c)
    ensures Calls([c] + rest, free, word) == Calls(rest, Unbound([c], word), word)
  {
    hide Calls, BeginsCall, Unbound;
    if free {
      if BeginsCall([c] + rest) {
        CallStarts([c] + rest);
        assert false;
      }
      FreeCharacterIsPassed(c, rest, word);
    } else {
      BoundCharacterIsPassed(c, rest, word);
    }
  }

  lemma SpaceIsPlain(c: char)
    requires IsSpace(c)
    ensures c !in {'g', 'n', 'p', 'w', 'd'} && c != '/' && !IsQuote(c)
  {
  }

  lemma LineSplit(b: string, body: string, rest: string)
    requires |b| >= 3 && b[..2] == "//" && body == b[2..|b| - 1] && b[|b| - 1] == '\n'
    ensures b + rest == "//" + body + (['\n'] + rest)
  {
    LineParts(b);
  }

  lemma LineBlankPasses(b: string, rest: string, free: bool, word: char -> bool) returns (then_: bool)
    requires |b| >= 3 && b[..2] == "//" && '\n' !in b[2..|b| - 1] && b[|b| - 1] == '\n'
    ensures Calls(b + rest, free, word) == Calls(rest, then_, word)
  {
    var body := b[2..|b| - 1];
    hide *;
    LineSplit(b, body, rest);
    LineCommentHides(body, ['\n'] + rest, free, word);
    PlainIsPassed('\n', rest, Unbound("//" + body, word), word);
    then_ := Unbound(['\n'], word);
  }

  lemma BlankPasses(b: string, rest: string, free: bool, word: char -> bool) returns (then_: bool)
    requires IsBlank(b)
    ensures Calls(b + rest, free, word) == Calls(rest, then_, word)
  {
    hide Calls, Unbound, NoStarSlash, IsSpace;
    if |b| == 1 && IsSpace(b[0]) {
      SpaceIsPlain(b[0]);
      PlainIsPassed(b[0], rest, free, word);
      assert b == [b[0]];
      then_ := Unbound([b[0]], word);
    } else if |b| >= 3 && b[..2] == "//" && '\n' !in b[2..|b| - 1] && b[|b| - 1] == '\n' {
      then_ := LineBlankPasses(b, rest, free, word);
    } else {
      BlockCommentHides(b[2..|b| - 2], rest, free, word);
      CommentParts(b);
      then_ := Unbound("/", word);
    }
  }

  lemma {:induction false} BlanksPass(pieces: seq<string>, rest: string, free: bool, word: char -> bool)
    returns (then_: bool)
    requires AllBlank(pieces)
    ensures Calls(Concat(pieces) + rest, free, word) == Calls(rest, then_, word)
  {
    hide *;
    if pieces == [] {
      NoPieces(rest);
      then_ := free;
    } else {
      AllBlankStep(pieces);
      ConcatStep(pieces, rest);
      var middle := BlankPasses(pieces[0], Concat(pieces[1..]) + rest, free, word);
      then_ := BlanksPass(pieces[1..], rest, middle, word);
    }
  }

  lemma StaticParts(literal: string) returns (quote: char, body: string)
    requires IsStatic(literal)
    ensures IsQuote(quote) && Closed(body, quote) && literal == [quote] + body + [quote]
  {
    hide Closed, StandsAt;
    quote, body := literal[0], literal[1..|literal| - 1];
  }

  lemma StaticPasses(literal: string, rest: string, free: bool, word: char -> bool) returns (then_: bool)
    requires IsStatic(literal)
    ensures Calls(literal + rest, free, word) == Calls(rest, then_, word)
  {
    hide *;
    var quote, body := StaticParts(literal);
    QuotedTextHides(body, quote, rest, free, word);
    then_ := Unbound([quote], word);
  }

  lemma ArgPasses(a: Arg, rest: string, free: bool, word: char -> bool) returns (then_: bool)
    requires GoodArg(a)
    ensures Calls(ArgText(a) + rest, free, word) == Calls(rest, then_, word)
  {
    hide Calls, Unbound, IsStatic, AllBlank, Concat;
    var before, after := Concat(a.before), Concat(a.after);
    assert ArgText(a) + rest == before + (a.literal + (after + rest));
    var first := BlanksPass(a.before, a.literal + (after + rest), free, word);
    var second := StaticPasses(a.literal, after + rest, first, word);
    then_ := BlanksPass(a.after, rest, second, word);
  }

  lemma {:induction false} ArgsPass(args: seq<Arg>, rest: string, free: bool, word: char -> bool)
    returns (then_: bool)
    requires args != [] && GoodArgs(args)
    ensures Calls(ArgsText(args) + rest, free, word) == Calls(rest, then_, word)
  {
    assert args[0] in args && GoodArg(args[0]) && GoodArgs(args[1..]);
    hide *;
    ArgsStep(args, rest);
    if |args| == 1 {
      then_ := ArgPasses(args[0], rest, free, word);
    } else {
      var tail := ArgsText(args[1..]) + rest;
      var first := ArgPasses(args[0], [','] + tail, free, word);
      CommaPasses(',', tail, first, word);
      then_ := ArgsPass(args[1..], rest, Unbound([','], word), word);
    }
  }

  lemma CommaPasses(c: char, rest: string, free: bool, word: char -> bool)
    requires c == ',' || c == ')'
    ensures Calls([c] + rest, free, word) == Calls(rest, Unbound([c], word), word)
  {
    hide Calls, Unbound;
    PlainIsPassed(c, rest, free, word);
  }

  // ----- which calls are emitted

  /** How many texts a function takes, what must follow them, and how the call is printed. */
  function Wanted(f: Function): nat {
    match f
    case Gettext => 1
    case NGettext => 2
    case PGettext => 2
    case NPGettext => 3
  }

  function Behind(f: Function): char {
    match f
    case Gettext => ')'
    case NGettext => ','
    case PGettext => ')'
    case NPGettext => ','
  }

  function NameText(f: Function): string {
    match f
    case Gettext => "gettext"
    case NGettext => "ngettext"
    case PGettext => "pgettext"
    case NPGettext => "npgettext"
  }

  function EmittedText(f: Function, literals: seq<string>): string
    requires |literals| == Wanted(f)
  {
    match f
    case Gettext => "gettext(" + literals[0] + ");"
    case NGettext => "ngettext(" + literals[0] + ", " + literals[1] + ", 2);"
    case PGettext => "pgettext(" + literals[0] + ", " + literals[1] + ");"
    case NPGettext => "npgettext(" + literals[0] + ", " + literals[1] + ", " + literals[2] + ", 2);"
  }

  lemma TextIs(f: Function, literals: seq<string>)
    requires |literals| == Wanted(f)
    ensures CallText(f, literals) == EmittedText(f, literals)
    ensures f.Arity() == Wanted(f) && f.Name() == NameText(f) && Behind(f) == if f.Plural() then ',' else ')'
  {
    match f
    case Gettext =>
      TextOfGettext(literals[0]);
      assert literals == [literals[0]];
    case NGettext =>
      TextOfNGettext(literals[0], literals[1]);
      assert literals == [literals[0], literals[1]];
    case PGettext =>
      TextOfPGettext(literals[0], literals[1]);
      assert literals == [literals[0], literals[1]];
    case NPGettext =>
      TextOfNPGettext(literals[0], literals[1], literals[2]);
      assert literals == [literals[0], literals[1], literals[2]];
  }

  lemma WrittenHead(prefix: string, f: Function, blanks: string, rest: string)
    requires f.Name() == NameText(f)
    ensures prefix + NameText(f) + blanks + "(" + rest == prefix + HeadText(f, blanks, rest)
  {
    hide Function.Name, NameText;
  }

  /**
   A call with static arguments is emitted wherever it is not bound, whatever blanks and comments stand in it, and the
   scan goes on behind its arguments.
   */
  lemma FreeCallEmits(prefix: string, f: Function, blanks: string, args: seq<Arg>, rest: string, word: char -> bool)
    requires prefix in PREFIXES && AllSpace(blanks) && |args| == Wanted(f) && GoodArgs(args)
    ensures |Literals(args)| == Wanted(f)
    ensures Calls(prefix + NameText(f) + blanks + "(" + (ArgsText(args) + ([Behind(f)] + rest)), true, word)
         == [EmittedText(f, Literals(args))] + Calls(rest, Unbound([Behind(f)], word), word)
  {
    var text := ArgsText(args) + ([Behind(f)] + rest);
    LiteralsLength(args);
    TextIs(f, Literals(args));
    assert Behind(f) == ',' || Behind(f) == ')';
    hide *;
    WrittenHead(prefix, f, blanks, text);
    FreeHead(prefix, f, blanks, text, word);
    CallIs(f, args, rest);
    var then_ := ArgsPass(args, [Behind(f)] + rest, Unbound("(", word), word);
    CommaPasses(Behind(f), rest, then_, word);
  }

  // ----- what is emitted was written

  lemma PieceOfTrivia(s: string) returns (b: string)
    requires 0 < TriviaLength(s) < |s|
    ensures IsBlank(b) && b <= s && TriviaLength(s) == |b| + TriviaLength(s[|b|..])
  {
    if IsSpace(s[0]) {
      b := s[..1];
    } else if LineComment(s) {
      var line := 2 + LineLength(s[2..]);
      b := s[..line + 1];
      LineBlank(s, line);
    } else {
      var n := BlockComment(s).value;
      b := s[..n];
      BlockBlank(s, n);
    }
  }

  lemma LineBlank(s: string, line: nat)
    requires LineComment(s) && line == 2 + LineLength(s[2..]) && line < |s|
    ensures IsBlank(s[..line + 1])
  {
    var b := s[..line + 1];
    hide LineLength;
    assert s[line] == s[2..][line - 2];
    assert b[2..|b| - 1] == s[2..][..line - 2];
  }

  lemma BlockBlank(s: string, n: nat)
    requires BlockComment(s) == Some(n)
    ensures IsBlank(s[..n])
  {
    var b := s[..n];
    BlockIsClosed(s[2..]);
    hide BlockLength, NoStarSlash;
    assert b[2..|b| - 2] == s[2..][..n - 4];
    assert b[|b| - 2..] == "*/";
  }

  lemma {:induction false} TriviaIsBlanks(s: string) returns (pieces: seq<string>)
    requires TriviaLength(s) < |s|
    ensures AllBlank(pieces) && Concat(pieces) == s[..TriviaLength(s)]
    decreases |s|
  {
    hide TriviaLength, IsBlank;
    if TriviaLength(s) == 0 {
      pieces := [];
      assert Concat([]) == "";
    } else {
      var b := PieceOfTrivia(s);
      assert |b| > 0 by { BlankHasText(b); }
      var rest := s[|b|..];
      var others := TriviaIsBlanks(rest);
      pieces := [b] + others;
      assert pieces[1..] == others;
      assert s[..TriviaLength(s)] == b + rest[..TriviaLength(rest)];
    }
  }

  lemma BlankHasText(b: string)
    requires IsBlank(b)
    ensures |b| > 0
  {
    hide NoStarSlash, IsSpace;
  }

  lemma StaticWas(s: string)
    requires LiteralLength(s).Some? && !Dynamic(s[..LiteralLength(s).value])
    ensures IsStatic(s[..LiteralLength(s).value])
  {
    var literal := s[..LiteralLength(s).value];
    ContainsIff(literal, DYNAMIC);
    QuotedIsClosed(s[1..], s[0]);
    hide QuotedLength, Contains;
    assert literal[1..|literal| - 1] == s[1..][..|literal| - 2];
  }

  lemma ArgumentWas(s: string) returns (a: Arg)
    requires Argument(s).Some? && Argument(s).value.1 < |s|
    ensures GoodArg(a) && a.literal == Argument(s).value.0 && s == ArgText(a) + s[Argument(s).value.1..]
  {
    hide TriviaLength, LiteralLength, Dynamic, IsStatic, AllBlank, Concat;
    var start := TriviaLength(s);
    var length := LiteralLength(s[start..]).value;
    var end := start + length;
    assert s[start..][..length] == s[start..end];
    var before := TriviaIsBlanks(s);
    var after := TriviaIsBlanks(s[end..]);
    StaticWas(s[start..]);
    a := Arg(before, s[start..end], after);
    var tail := s[Argument(s).value.1..];
    assert s[end..] == Concat(after) + tail;
    assert s == Concat(before) + (s[start..end] + (Concat(after) + tail));
  }

  ghost predicate Written(s: string, count: nat, c: char, literals: seq<string>) {
    exists args, rest ::
      |args| == count > 0 && GoodArgs(args) && Literals(args) == literals && s == ArgsText(args) + ([c] + rest)
  }

  lemma OneWritten(a: Arg, c: char, rest: string)
    requires GoodArg(a)
    ensures Written(ArgText(a) + ([c] + rest), 1, c, [a.literal])
  {
    hide GoodArg, ArgText;
    var args := [a];
    assert GoodArgs(args) && ArgsText(args) == ArgText(a);
    assert Literals(args) == [a.literal] + Literals([]);
  }

  lemma MoreWritten(a: Arg, c: char, tail: string, count: nat, literals: seq<string>)
    requires GoodArg(a) && Written(tail, count, c, literals)
    ensures Written(ArgText(a) + ([','] + tail), count + 1, c, [a.literal] + literals)
  {
    hide GoodArg, ArgText;
    var others, rest :| |others| == count > 0 && GoodArgs(others) && Literals(others) == literals
        && tail == ArgsText(others) + ([c] + rest);
    var args := [a] + others;
    assert args[1..] == others;
    ArgsStep(args, [c] + rest);
    hide ArgsText, Literals;
    assert GoodArgs(args);
  }

  lemma {:induction false} ArgumentsWere(s: string, count: nat, c: char)
    requires count > 0 && Arguments(s, count).Some? && StartsWith(s[Arguments(s, count).value.1..], c)
    ensures Written(s, count, c, Arguments(s, count).value.0)
    decreases count
  {
    hide Argument, GoodArg, ArgText, Written;
    var (literal, end) := Argument(s).value;
    if count == 1 {
      var a := ArgumentWas(s);
      assert s[end..] == [c] + s[end + 1..];
      OneWritten(a, c, s[end + 1..]);
    } else {
      var a := ArgumentWas(s);
      var tail := s[end + 1..];
      var rest := Arguments(tail, count - 1).value;
      assert s[end..] == [','] + tail;
      assert tail[rest.1..] == s[Arguments(s, count).value.1..];
      ArgumentsWere(tail, count - 1, c);
      MoreWritten(a, c, tail, count - 1, rest.0);
    }
  }

  /** A free head emits a call iff its static arguments are written behind it. */
  lemma CallIff(f: Function, s: string, text: string)
    ensures text in CallWith(f, s)
       <==> exists literals ::
              |literals| == Wanted(f) && Written(s, Wanted(f), Behind(f), literals) && text == EmittedText(f, literals)
  {
    hide Arguments, Written, CallText, EmittedText;
    ArityIs(f);
    if text in CallWith(f, s) {
      var read := Arguments(s, f.Arity()).value;
      ArgumentsWere(s, f.Arity(), Behind(f));
      TextIs(f, read.0);
    }
    if literals :|
      |literals| == Wanted(f) && Written(s, Wanted(f), Behind(f), literals) && text == EmittedText(f, literals)
    {
      WrittenIsRead(f, s, literals);
      TextIs(f, literals);
    }
  }

  lemma ArityIs(f: Function)
    ensures f.Arity() == Wanted(f) && Behind(f) == if f.Plural() then ',' else ')'
  {
  }

  lemma WrittenIsRead(f: Function, s: string, literals: seq<string>)
    requires Written(s, f.Arity(), if f.Plural() then ',' else ')', literals)
    ensures CallWith(f, s) == [CallText(f, literals)]
  {
    hide CallWith, GoodArgs, CallText, ArgsText;
    var args, rest :| |args| == f.Arity() && GoodArgs(args) && Literals(args) == literals
        && s == ArgsText(args) + ([if f.Plural() then ',' else ')'] + rest);
    CallIs(f, args, rest);
  }
}
