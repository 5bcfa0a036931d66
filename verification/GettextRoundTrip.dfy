/**
 The printed calls are read back unchanged by the second extraction pass
 (scripts/update_translations.py:17-51, 80-122).
 */
module GettextRoundTrip {
  import opened Text
  import opened FirstSeen
  import opened GettextScanner

  predicate IsLiteral(t: string) {
    LiteralLength(t) == Some(|t|)
  }

  predicate Static(literals: seq<string>) {
    forall t :: t in literals ==> IsLiteral(t) && !Dynamic(t)
  }

  /** What the scanner prints, as opposed to any other line of JavaScript. */
  ghost predicate Printed(call: string) {
    exists f: Function, literals :: |literals| == f.Arity() && Static(literals) && call == CallText(f, literals)
  }

  // ----- quoted texts do not depend on what follows

  lemma {:induction false} QuotedRest(s: string, quote: char, rest: string)
    requires QuotedLength(s, quote).Some?
    ensures QuotedLength(s + rest, quote) == QuotedLength(s, quote)
    decreases |s|
  {
    if s[0] != quote {
      var step := if s[0] == '\\' then 2 else 1;
      QuotedRest(s[step..], quote, rest);
      assert (s + rest)[step..] == s[step..] + rest;
    }
  }

  lemma {:induction false} QuotedCut(s: string, quote: char)
    requires QuotedLength(s, quote).Some?
    ensures QuotedLength(s[..QuotedLength(s, quote).value], quote) == QuotedLength(s, quote)
    decreases |s|
  {
    var cut := s[..QuotedLength(s, quote).value];
    if s[0] != quote {
      var step := if s[0] == '\\' then 2 else 1;
      QuotedCut(s[step..], quote);
      assert cut[step..] == s[step..][..QuotedLength(s[step..], quote).value];
    }
  }

  lemma LiteralRest(t: string, rest: string)
    requires IsLiteral(t)
    ensures LiteralLength(t + rest) == Some(|t|)
    ensures t != "" && (t[0] == '\'' || t[0] == '"')
  {
    QuotedRest(t[1..], t[0], rest);
    assert (t + rest)[1..] == t[1..] + rest;
  }

  lemma LiteralCut(s: string)
    requires LiteralLength(s).Some?
    ensures IsLiteral(s[..LiteralLength(s).value])
  {
    var cut := s[..LiteralLength(s).value];
    QuotedCut(s[1..], s[0]);
    assert cut[1..] == s[1..][..LiteralLength(s).value - 1];
  }

  // ----- everything that is emitted is a printed call of static literals

  lemma ArgumentStatic(s: string)
    requires Argument(s).Some?
    ensures IsLiteral(Argument(s).value.0) && !Dynamic(Argument(s).value.0)
  {
    hide LiteralLength, TriviaLength, Dynamic;
    var start := TriviaLength(s);
    var length := LiteralLength(s[start..]).value;
    LiteralCut(s[start..]);
    assert s[start..][..length] == s[start..start + length];
  }

  lemma {:induction false} ArgumentsStatic(s: string, count: nat)
    requires count > 0 && Arguments(s, count).Some?
    ensures Static(Arguments(s, count).value.0)
    decreases count
  {
    hide Argument, IsLiteral, Dynamic;
    ArgumentStatic(s);
    if count > 1 {
      ArgumentsStatic(s[Argument(s).value.1 + 1..], count - 1);
    }
  }

  lemma {:induction false} EmittedArePrinted(s: string, free: bool, word: char -> bool)
    ensures forall call :: call in Calls(s, free, word) ==> Printed(call)
    decreases |s|
  {
    if s != "" {
      CallsStep(s, free, word);
      var token := TokenAt(s, free);
      var n := if token.Some? then token.value.length else 1;
      EmittedArePrinted(s[n..], Frees(s[n - 1], word), word);
      if token.Some? && token.value.Head? {
        var f := token.value.function_;
        if CallWith(f, s[n..]) != [] {
          ArgumentsStatic(s[n..], f.Arity());
          var literals := Arguments(s[n..], f.Arity()).value.0;
          assert Printed(CallText(f, literals));
        }
      }
    }
  }

  // ----- the text of a call, from its first literal on

  function ArgumentText(literals: seq<string>, plural: bool): string
    requires literals != []
  {
    if |literals| == 1 then literals[0] + (if plural then ", 2);" else ");")
    else literals[0] + ", " + ArgumentText(literals[1..], plural)
  }

  lemma {:induction false} ArgumentTextIsJoined(literals: seq<string>, plural: bool)
    requires literals != []
    ensures ArgumentText(literals, plural) == Join(if plural then literals + ["2"] else literals, ", ") + ");"
  {
    var parts := if plural then literals + ["2"] else literals;
    if |literals| == 1 {
      if plural {
        assert parts[1..] == ["2"];
        assert Join(["2"], ", ") == "2";
        assert literals[0] + ", " + "2" + ");" == literals[0] + ", 2);";
      }
    } else {
      ArgumentTextIsJoined(literals[1..], plural);
      assert parts[1..] == if plural then literals[1..] + ["2"] else literals[1..];
      assert literals[0] + ", " + (Join(parts[1..], ", ") + ");") == literals[0] + ", " + Join(parts[1..], ", ") + ");";
    }
  }

  lemma CallTextParts(f: Function, literals: seq<string>)
    requires literals != []
    ensures CallText(f, literals) == f.Name() + "(" + ArgumentText(literals, f.Plural())
  {
    ArgumentTextIsJoined(literals, f.Plural());
    var parts := if f.Plural() then literals + ["2"] else literals;
    assert f.Name() + "(" + (Join(parts, ", ") + ");") == f.Name() + "(" + Join(parts, ", ") + ");";
  }

  // ----- reading the arguments back

  lemma NoTrivia(s: string)
    requires s != "" && !IsSpace(s[0]) && s[0] != '/'
    ensures TriviaLength(s) == 0
  {
  }

  lemma OneBlank(s: string)
    requires s != "" && !IsSpace(s[0]) && s[0] != '/'
    ensures TriviaLength(" " + s) == 1
  {
    assert (" " + s)[1..] == s;
  }

  /** The first literal of a list and the position behind it, whatever follows. */
  lemma FirstArgument(t: string, c: char, rest: string)
    requires IsLiteral(t) && !Dynamic(t)
    requires c == ',' || c == ')'
    ensures Argument(t + ([c] + rest)) == Some((t, |t|))
    ensures Argument(" " + (t + ([c] + rest))) == Some((t, |t| + 1))
  {
    hide LiteralLength, TriviaLength, Dynamic;
    var s := t + ([c] + rest);
    LiteralRest(t, [c] + rest);
    NoTrivia(s);
    assert s[0..] == s;
    assert s[..|t|] == t && s[|t|..] == [c] + rest;
    NoTrivia([c] + rest);
    OneBlank(s);
    var blank := " " + s;
    assert blank[1..] == s;
    assert blank[1..|t| + 1] == t && blank[|t| + 1..] == [c] + rest;
  }

  ghost predicate ReadsBack(s: string, literals: seq<string>, plural: bool)
    requires literals != []
  {
    var r := Arguments(s, |literals|);
    r.Some? && r.value.0 == literals && StartsWith(s[r.value.1..], if plural then ',' else ')')
  }

  lemma LastArgument(t: string, end: nat, s: string, tail: string, literals: seq<string>, plural: bool)
    requires literals == [t] && end <= |s|
    requires Argument(s) == Some((t, end)) && s[end..] == [if plural then ',' else ')'] + tail
    ensures ReadsBack(s, literals, plural)
  {
    hide Argument;
  }

  lemma NextArguments(t: string, end: nat, s: string, tail: string, literals: seq<string>, plural: bool)
    requires |literals| > 1 && literals[0] == t
    requires Argument(s) == Some((t, end)) && s[end..] == [','] + tail
    requires ReadsBack(tail, literals[1..], plural)
    ensures ReadsBack(s, literals, plural)
  {
    hide Argument;
    assert s[end + 1..] == tail;
    assert literals == [t] + literals[1..];
    var r := Arguments(tail, |literals| - 1);
    assert s[end + 1 + r.value.1..] == tail[r.value.1..];
  }

  /** The blank that separates two arguments belongs to the second one. */
  lemma {:induction false} ArgumentsReadBack(literals: seq<string>, plural: bool, rest: string)
    requires literals != [] && Static(literals)
    ensures ReadsBack(ArgumentText(literals, plural) + rest, literals, plural)
    ensures ReadsBack(" " + (ArgumentText(literals, plural) + rest), literals, plural)
  {
    hide Argument, Arguments, ReadsBack, IsLiteral, Dynamic;
    var t := literals[0];
    assert t in literals;
    var s := ArgumentText(literals, plural) + rest;
    if |literals| == 1 {
      var c, tail := if plural then ',' else ')', (if plural then " 2);" else ";") + rest;
      assert s == t + ([c] + tail);
      FirstArgument(t, c, tail);
      assert s[|t|..] == [c] + tail && (" " + s)[|t| + 1..] == [c] + tail;
      LastArgument(t, |t|, s, tail, literals, plural);
      LastArgument(t, |t| + 1, " " + s, tail, literals, plural);
    } else {
      var tail := " " + (ArgumentText(literals[1..], plural) + rest);
      ArgumentsReadBack(literals[1..], plural, rest);
      assert s == t + ([','] + tail);
      FirstArgument(t, ',', tail);
      assert s[|t|..] == [','] + tail && (" " + s)[|t| + 1..] == [','] + tail;
      NextArguments(t, |t|, s, tail, literals, plural);
      NextArguments(t, |t| + 1, " " + s, tail, literals, plural);
    }
  }

  // ----- nothing else in a printed call is a token

  predicate Inert(c: char) {
    c != '/' && c != '\'' && c != '"' && c != '`' && c != 'w' && c != 'd' && c != 'g' && c != 'n' && c != 'p'
  }

  lemma InertStart(s: string, free: bool)
    requires s != "" && Inert(s[0])
    ensures TokenAt(s, free).None?
  {
  }

  lemma {:induction false} SkipInert(t: string, rest: string, free: bool, word: char -> bool)
    requires t != "" && forall c :: c in t ==> Inert(c)
    ensures Calls(t + rest, free, word) == Calls(rest, Frees(t[|t| - 1], word), word)
  {
    hide TokenAt, CallWith, Frees, Calls;
    var s := t + rest;
    assert s[0] == t[0] && t[0] in t;
    InertStart(s, free);
    CallsStep(s, free, word);
    assert s[1..] == t[1..] + rest;
    if |t| > 1 {
      SkipInert(t[1..], rest, Frees(t[0], word), word);
    }
  }

  lemma TokenOfLiteral(t: string, rest: string, free: bool)
    requires IsLiteral(t)
    ensures t != "" && TokenAt(t + rest, free) == Some(Opaque(|t|))
  {
    hide LiteralLength;
    LiteralRest(t, rest);
  }

  lemma SkipLiteral(t: string, rest: string, free: bool, word: char -> bool)
    requires IsLiteral(t)
    ensures Calls(t + rest, free, word) == Calls(rest, Frees(t[|t| - 1], word), word)
  {
    hide TokenAt, CallWith, Calls, IsLiteral;
    TokenOfLiteral(t, rest, free);
    CallsStep(t + rest, free, word);
    assert (t + rest)[|t|..] == rest;
  }

  lemma {:induction false} SkipArguments(literals: seq<string>, plural: bool, rest: string, free: bool,
          word: char -> bool)
    requires literals != [] && Static(literals) && Frees('\n', word)
    ensures Calls(ArgumentText(literals, plural) + ("\n" + rest), free, word) == Calls(rest, true, word)
  {
    hide TokenAt, CallWith, Calls;
    var t := literals[0];
    assert t in literals;
    if |literals| == 1 {
      var tail := (if plural then ", 2);" else ");") + "\n";
      assert ArgumentText(literals, plural) + ("\n" + rest) == t + (tail + rest);
      SkipLiteral(t, tail + rest, free, word);
      SkipInert(tail, rest, Frees(t[|t| - 1], word), word);
    } else {
      var more := ArgumentText(literals[1..], plural) + ("\n" + rest);
      assert ArgumentText(literals, plural) + ("\n" + rest) == t + (", " + more);
      SkipLiteral(t, ", " + more, free, word);
      SkipInert(", ", more, Frees(t[|t| - 1], word), word);
      SkipArguments(literals[1..], plural, rest, Frees(' ', word), word);
    }
  }

  // ----- one printed line

  lemma HeadOfName(f: Function, g: Function, rest: string)
    ensures HeadLength(f.Name() + "(" + rest, g) == if f == g then Some(|f.Name()| + 1) else None
  {
    var s := f.Name() + "(" + rest;
    if f == g {
      assert s[|f.Name()|..] == "(" + rest;
      assert SpaceLength("(" + rest) == 0;
    } else {
      match f
      case Gettext => assert s[0] == 'g';
      case NGettext => assert s[0] == 'n' && s[1] == 'g';
      case PGettext => assert s[0] == 'p';
      case NPGettext => assert s[0] == 'n' && s[1] == 'p';
    }
  }

  lemma NameStart(f: Function, rest: string)
    ensures var s := f.Name() + "(" + rest;
      && s != "" && s[0] != '/' && s[0] != '\'' && s[0] != '"' && s[0] != '`'
      && !Qualified(s)
  {
    assert (f.Name() + "(" + rest)[0] == f.Name()[0];
  }

  lemma HeadOfLine(f: Function, rest: string)
    ensures TokenAt(f.Name() + "(" + rest, true) == Some(Head(f, |f.Name()| + 1))
  {
    var s := f.Name() + "(" + rest;
    HeadOfName(f, Gettext, rest);
    HeadOfName(f, NGettext, rest);
    HeadOfName(f, PGettext, rest);
    HeadOfName(f, NPGettext, rest);
    NameStart(f, rest);
    hide HeadLength;
  }

  lemma PrintedLine(f: Function, literals: seq<string>, rest: string, word: char -> bool)
    requires |literals| == f.Arity() && Static(literals) && Frees('\n', word)
    ensures Calls(CallText(f, literals) + "\n" + rest, true, word) == [CallText(f, literals)] + Calls(rest, true, word)
  {
    hide TokenAt, Calls;
    var arguments := ArgumentText(literals, f.Plural()) + ("\n" + rest);
    var line := CallText(f, literals) + "\n" + rest;
    var n := |f.Name()| + 1;
    CallTextParts(f, literals);
    assert line == f.Name() + "(" + arguments;
    HeadOfLine(f, arguments);
    CallsStep(line, true, word);
    assert line[n..] == arguments;
    ArgumentsReadBack(literals, f.Plural(), "\n" + rest);
    SkipArguments(literals, f.Plural(), rest, Frees(line[n - 1], word), word);
  }

  // ----- the generated file

  function Lines(calls: seq<string>): string {
    if calls == [] then "" else calls[0] + "\n" + Lines(calls[1..])
  }

  lemma {:induction false} LinesReadBack(calls: seq<string>, word: char -> bool)
    requires (forall call :: call in calls ==> Printed(call)) && Frees('\n', word)
    ensures Calls(Lines(calls), true, word) == calls
  {
    if calls == [] {
      NoCallsInEmpty(true, word);
    } else {
      LinesReadBack(calls[1..], word);
      assert calls[0] in calls;
      var f: Function, literals :| |literals| == f.Arity() && Static(literals) && calls[0] == CallText(f, literals);
      PrintedLine(f, literals, Lines(calls[1..]), word);
      assert calls == [calls[0]] + calls[1..];
    }
  }

  const HEADER := "// Generated from "
  const NOTICE := "; do not edit."

  /** The text that `write_inline_sources` writes for a template with calls. */
  function FileText(path: string, calls: seq<string>): string {
    HEADER + path + NOTICE + "\n" + Join(calls, "\n") + "\n"
  }

  lemma {:induction false} JoinedLines(calls: seq<string>)
    requires calls != []
    ensures Join(calls, "\n") + "\n" == Lines(calls)
  {
    if |calls| > 1 {
      JoinedLines(calls[1..]);
      assert calls[0] + "\n" + (Join(calls[1..], "\n") + "\n") == Join(calls, "\n") + "\n";
    } else {
      assert Lines(calls[1..]) == "";
      assert calls[0] + "\n" + "" == calls[0] + "\n";
    }
  }

  lemma {:induction false} LineEnd(s: string, rest: string)
    requires '\n' !in s
    ensures LineLength(s + "\n" + rest) == |s|
  {
    var whole := s + "\n" + rest;
    assert whole[|s|] == '\n';
    assert forall i {:trigger whole[i]} :: 0 <= i < |s| ==> whole[i] in s;
    assert forall i {:trigger whole[i]} :: 0 <= i < LineLength(whole) ==> whole[i] == whole[..LineLength(whole)][i];
  }

  lemma SkipHeader(path: string, rest: string, word: char -> bool)
    requires '\n' !in path && Frees('\n', word)
    ensures Calls(HEADER + path + NOTICE + "\n" + rest, true, word) == Calls(rest, true, word)
  {
    hide Calls, CallWith;
    var comment := HEADER[2..] + path + NOTICE;
    var line := "\n" + rest;
    var s := HEADER + path + NOTICE + "\n" + rest;
    assert s == HEADER[..2] + comment + line;
    assert '\n' !in comment;
    LineEnd(comment, rest);
    assert s[2..] == comment + "\n" + rest;
    CallsStep(s, true, word);
    assert s[2 + |comment|..] == "\n" + rest;
    var free := Frees(s[2 + |comment| - 1], word);
    SkipInert("\n", rest, free, word);
  }

  /**
   The round trip: scanning the written file gives back exactly the calls it was written for, in order.
   The path is one line and a line break is no word character.
   */
  lemma FileReadsBack(path: string, calls: seq<string>, word: char -> bool)
    requires '\n' !in path && Frees('\n', word)
    requires calls != [] && forall call :: call in calls ==> Printed(call)
    ensures Calls(FileText(path, calls), true, word) == calls
  {
    hide Calls;
    SkipHeader(path, Lines(calls), word);
    JoinedLines(calls);
    assert FileText(path, calls) == HEADER + path + NOTICE + "\n" + Lines(calls);
    LinesReadBack(calls, word);
  }

  // ----- the extraction from the snippets of a template

  function SnippetCalls(snippets: seq<string>, word: char -> bool): seq<string> {
    if snippets == [] then [] else Calls(snippets[0], true, word) + SnippetCalls(snippets[1..], word)
  }

  lemma {:induction false} SnippetCallsPrinted(snippets: seq<string>, word: char -> bool)
    ensures forall call :: call in SnippetCalls(snippets, word) ==> Printed(call)
  {
    if snippets != [] {
      EmittedArePrinted(snippets[0], true, word);
      SnippetCallsPrinted(snippets[1..], word);
    }
  }

  /** Whatever the snippets contain, with repeated calls dropped as `dict.fromkeys` does,
      the generated file stands for exactly their distinct calls. */
  lemma ExtractionReadsBack(path: string, snippets: seq<string>, word: char -> bool)
    requires '\n' !in path && Frees('\n', word)
    ensures var calls := Unique(SnippetCalls(snippets, word));
      calls != [] ==> Calls(FileText(path, calls), true, word) == calls
  {
    SnippetCallsPrinted(snippets, word);
    UniqueMembers(SnippetCalls(snippets, word));
    var calls := Unique(SnippetCalls(snippets, word));
    if calls != [] {
      FileReadsBack(path, calls, word);
    }
  }

  /** Scanning is idempotent: printing what was scanned and scanning it again changes nothing. */
  lemma ScanIsIdempotent(javascript: string, word: char -> bool)
    requires Frees('\n', word)
    ensures Calls(Lines(Calls(javascript, true, word)), true, word) == Calls(javascript, true, word)
  {
    EmittedArePrinted(javascript, true, word);
    LinesReadBack(Calls(javascript, true, word), word);
  }
}
