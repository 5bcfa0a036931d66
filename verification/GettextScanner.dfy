/**
 The JavaScript scanner that finds gettext calls with literal arguments and prints them again
 (scripts/update_translations.py:12-51, 88-122). A regular expression of the source is a function from
 the text at hand to the length it matches there; none of them can match one text in two ways.

 `word` is the source's `\w`. Nothing is assumed about it except where a lemma says so.
 */
module GettextScanner {
  import opened Text

  const DYNAMIC := "__FLOPPY_TEMPLATE_EXPRESSION__"

  datatype Function = Gettext | NGettext | PGettext | NPGettext {
    function Name(): string {
      match this
      case Gettext => "gettext"
      case NGettext => "ngettext"
      case PGettext => "pgettext"
      case NPGettext => "npgettext"
    }

    function Arity(): nat {
      match this
      case Gettext => 1
      case NGettext => 2
      case PGettext => 2
      case NPGettext => 3
    }

    predicate Plural() { NGettext? || NPGettext? }
  }

  // ----- lexemes

  /** `[^\n]*` */
  function LineLength(s: string): (n: nat)
    ensures n <= |s|
    ensures '\n' !in s[..n] && (n < |s| ==> s[n] == '\n')
  {
    if s == "" || s[0] == '\n' then 0 else 1 + LineLength(s[1..])
  }

  /** `[\s\S]*?\*` followed by `/`: up to and including the first end of a comment. */
  function BlockLength(s: string): (n: Option<nat>)
    ensures n.Some? ==> 2 <= n.value <= |s|
  {
    if |s| < 2 then None
    else if s[0] == '*' && s[1] == '/' then Some(2)
    else
      var rest := BlockLength(s[1..]);
      if rest.Some? then Some(1 + rest.value) else None
  }

  /** The rest of a quoted text, up to and including the first quote that is not escaped. */
  function QuotedLength(s: string, quote: char): (n: Option<nat>)
    ensures n.Some? ==> 1 <= n.value <= |s|
  {
    if s == "" then None
    else if s[0] == quote then Some(1)
    else
      var step := if s[0] == '\\' then 2 else 1;
      if |s| < step then None
      else
        var rest := QuotedLength(s[step..], quote);
        if rest.Some? then Some(step + rest.value) else None
  }

  predicate StartsWith(s: string, c: char) {
    s != "" && s[0] == c
  }

  function Quoted(s: string, quote: char): (n: Option<nat>)
    ensures n.Some? ==> 2 <= n.value <= |s|
  {
    if !StartsWith(s, quote) then None
    else
      var rest := QuotedLength(s[1..], quote);
      if rest.Some? then Some(1 + rest.value) else None
  }

  /** STRING */
  function LiteralLength(s: string): (n: Option<nat>)
    ensures n.Some? ==> 2 <= n.value <= |s|
  {
    if StartsWith(s, '\'') then Quoted(s, '\'') else Quoted(s, '"')
  }

  function SpaceLength(s: string): (n: nat)
    ensures n <= |s|
  {
    if s == "" || !IsSpace(s[0]) then 0 else 1 + SpaceLength(s[1..])
  }

  predicate LineComment(s: string) {
    |s| >= 2 && s[0] == '/' && s[1] == '/'
  }

  function BlockComment(s: string): (n: Option<nat>)
    ensures n.Some? ==> 4 <= n.value <= |s|
  {
    if |s| < 2 || s[0] != '/' || s[1] != '*' then None
    else
      var rest := BlockLength(s[2..]);
      if rest.Some? then Some(2 + rest.value) else None
  }

  /** TRIVIA */
  function TriviaLength(s: string): (n: nat)
    ensures n <= |s|
  {
    if s == "" then 0
    else if IsSpace(s[0]) then 1 + TriviaLength(s[1..])
    else if LineComment(s) then
      var line := 2 + LineLength(s[2..]);
      var n := if line < |s| then line + 1 else line;
      n + TriviaLength(s[n..])
    else if BlockComment(s).Some? then
      var n := BlockComment(s).value;
      n + TriviaLength(s[n..])
    else 0
  }

  // ----- TOKEN

  datatype Token = Opaque(length: nat) | Head(function_: Function, length: nat)

  /** The function name, blanks and the opening parenthesis. */
  function HeadLength(s: string, f: Function): (n: Option<nat>)
    ensures n.Some? ==> 0 < n.value <= |s|
  {
    var name := f.Name();
    if !(name <= s) then None
    else
      var k := |name| + SpaceLength(s[|name|..]);
      if k < |s| && s[k] == '(' then Some(k + 1) else None
  }

  function NamedHead(s: string): (t: Option<Token>)
    ensures t.Some? ==> t.value.Head? && 0 < t.value.length <= |s|
  {
    if HeadLength(s, Gettext).Some? then Some(Head(Gettext, HeadLength(s, Gettext).value))
    else if HeadLength(s, NGettext).Some? then Some(Head(NGettext, HeadLength(s, NGettext).value))
    else if HeadLength(s, PGettext).Some? then Some(Head(PGettext, HeadLength(s, PGettext).value))
    else if HeadLength(s, NPGettext).Some? then Some(Head(NPGettext, HeadLength(s, NPGettext).value))
    else None
  }

  predicate Qualified(s: string) {
    "window." <= s || "django." <= s
  }

  function CallHead(s: string): (t: Option<Token>)
    ensures t.Some? ==> t.value.Head? && 0 < t.value.length <= |s|
  {
    if Qualified(s) && NamedHead(s[7..]).Some? then
      var t := NamedHead(s[7..]).value;
      Some(Head(t.function_, 7 + t.length))
    else NamedHead(s)
  }

  /** The token at the start of `s`; `free` says that the character before does not bind a name to it. */
  function TokenAt(s: string, free: bool): (t: Option<Token>)
    ensures t.Some? ==> 0 < t.value.length <= |s|
  {
    if LineComment(s) then Some(Opaque(2 + LineLength(s[2..])))
    else if BlockComment(s).Some? then Some(Opaque(BlockComment(s).value))
    else if LiteralLength(s).Some? then Some(Opaque(LiteralLength(s).value))
    else if Quoted(s, '`').Some? then Some(Opaque(Quoted(s, '`').value))
    else if free then CallHead(s)
    else None
  }

  /** The lookbehind of TOKEN. */
  predicate Frees(c: char, word: char -> bool) {
    !word(c) && c != '$' && c != '.'
  }

  // ----- calls

  predicate Dynamic(literal: string) {
    Contains(literal, DYNAMIC)
  }

  /** The static literal at the start of `s` and the position behind it and the blanks that follow. */
  function Argument(s: string): (r: Option<(string, nat)>)
    ensures r.Some? ==> r.value.1 <= |s|
  {
    var start := TriviaLength(s);
    var length := LiteralLength(s[start..]);
    if length.None? || Dynamic(s[start..start + length.value]) then None
    else
      var end := start + length.value;
      Some((s[start..end], end + TriviaLength(s[end..])))
  }

  function Before(literal: string, length: nat, rest: Option<(seq<string>, nat)>): Option<(seq<string>, nat)> {
    if rest.None? then None else Some(([literal] + rest.value.0, length + rest.value.1))
  }

  /** The static literals at the start of `s`, as many as asked for, and the position behind them. */
  function Arguments(s: string, count: nat): (r: Option<(seq<string>, nat)>)
    requires count > 0
    ensures r.Some? ==> |r.value.0| == count && r.value.1 <= |s|
    decreases count
  {
    var first := Argument(s);
    if first.None? then None
    else
      var (literal, end) := first.value;
      if count == 1 then Some(([literal], end))
      else if !StartsWith(s[end..], ',') then None
      else
        Before(literal, end + 1, Arguments(s[end + 1..], count - 1))
  }

  function Join(parts: seq<string>, separator: string): string {
    if parts == [] then ""
    else if |parts| == 1 then parts[0]
    else parts[0] + separator + Join(parts[1..], separator)
  }

  /** What is printed for a call: its literals, and a constant for the count of a plural. */
  function CallText(f: Function, literals: seq<string>): string {
    f.Name() + "(" + Join(if f.Plural() then literals + ["2"] else literals, ", ") + ");"
  }

  /** The call whose arguments start at the beginning of `s`, if they are static. */
  function CallWith(f: Function, s: string): seq<string> {
    var arguments := Arguments(s, f.Arity());
    if arguments.Some? && StartsWith(s[arguments.value.1..], if f.Plural() then ',' else ')')
    then [CallText(f, arguments.value.0)]
    else []
  }

  /** All calls that the scanner emits for `s`. */
  function Calls(s: string, free: bool, word: char -> bool): seq<string>
    decreases |s|
  {
    if s == "" then []
    else
      var token := TokenAt(s, free);
      if token.None? then Calls(s[1..], Frees(s[0], word), word)
      else
        var n := token.value.length;
        var rest := Calls(s[n..], Frees(s[n - 1], word), word);
        if token.value.Opaque? then rest else CallWith(token.value.function_, s[n..]) + rest
  }

  // ----- the scanner as the source writes it

  /** One pass of the argument loop: blanks, a static literal, blanks. */
  method ReadArgument(javascript: string, start: nat) returns (literal: string, position: nat, constant: bool)
    requires start <= |javascript|
    ensures position <= |javascript|
    ensures var r := Argument(javascript[start..]);
      if constant then r == Some((literal, position - start)) && start <= position else r.None?
  {
    hide LiteralLength, TriviaLength, Dynamic;
    ghost var here := javascript[start..];
    position := start + TriviaLength(javascript[start..]);
    assert javascript[position..] == here[position - start..];
    literal := "";
    var length := LiteralLength(javascript[position..]);
    if length.None? {
      constant := false;
      return;
    }
    literal := javascript[position..position + length.value];
    assert literal == here[position - start..position - start + length.value];
    constant := !Dynamic(literal);
    position := position + length.value;
    assert javascript[position..] == here[position - start..];
    position := position + TriviaLength(javascript[position..]);
  }

  /** Having read `literals` up to `position`, what is still to be read decides the result. */
  ghost predicate ReadSoFar(javascript: string, start: nat, count: nat, literals: seq<string>, position: nat)
    requires start <= position <= |javascript| && 0 < count && |literals| <= count
  {
    var r := Arguments(javascript[start..], count);
    if |literals| == count then r == Some((literals, position - start))
    else
      var rest := Arguments(javascript[position..], count - |literals|);
      if rest.None? then r.None?
      else r == Some((literals + rest.value.0, position - start + rest.value.1))
  }

  lemma ReadNothing(javascript: string, start: nat, count: nat)
    requires start <= |javascript| && 0 < count
    ensures ReadSoFar(javascript, start, count, [], start)
  {
    assert forall all: seq<string> :: [] + all == all;
  }

  lemma ReadOne(javascript: string, start: nat, count: nat, literals: seq<string>, position: nat, literal: string,
          end: nat)
    requires start <= position <= end <= |javascript| && |literals| < count
    requires ReadSoFar(javascript, start, count, literals, position)
    requires Argument(javascript[position..]) == Some((literal, end - position))
    ensures if |literals| + 1 == count then ReadSoFar(javascript, start, count, literals + [literal], end)
            else if end < |javascript| && javascript[end] == ','
            then ReadSoFar(javascript, start, count, literals + [literal], end + 1)
            else Arguments(javascript[start..], count).None?
  {
    hide Argument;
    assert javascript[position..][end - position..] == javascript[end..];
    if |literals| + 1 < count && StartsWith(javascript[end..], ',') {
      assert javascript[position..][end - position + 1..] == javascript[end + 1..];
      var rest := Arguments(javascript[end + 1..], count - |literals| - 1);
      if rest.Some? {
        assert literals + ([literal] + rest.value.0) == literals + [literal] + rest.value.0;
      }
    }
  }

  lemma ReadFails(javascript: string, start: nat, count: nat, literals: seq<string>, position: nat)
    requires start <= position <= |javascript| && |literals| < count
    requires ReadSoFar(javascript, start, count, literals, position) && Argument(javascript[position..]).None?
    ensures Arguments(javascript[start..], count).None?
  {
    hide Argument;
  }

  lemma ReadAll(javascript: string, start: nat, count: nat, literals: seq<string>, position: nat)
    requires start <= position <= |javascript| && 0 < count == |literals|
    requires ReadSoFar(javascript, start, count, literals, position)
    ensures Arguments(javascript[start..], count) == Some((literals, position - start))
  {
  }

  /** One pass of the argument loop: an argument and, before another one, a comma. */
  method ReadNext(javascript: string, ghost start: nat, count: nat, literals0: seq<string>, position0: nat)
    returns (literals: seq<string>, position: nat, complete: bool)
    requires start <= position0 <= |javascript| && |literals0| < count
    requires ReadSoFar(javascript, start, count, literals0, position0)
    ensures position0 <= position <= |javascript|
    ensures complete ==> |literals| == |literals0| + 1 && ReadSoFar(javascript, start, count, literals, position)
    ensures !complete ==> Arguments(javascript[start..], count).None?
  {
    hide *;
    literals, position := literals0, position0;
    var literal, end, constant := ReadArgument(javascript, position0);
    if !constant {
      ReadFails(javascript, start, count, literals, position);
      complete := false;
    } else {
      ReadOne(javascript, start, count, literals, position, literal, end);
      literals := literals + [literal];
      position := end;
      if |literals| == count {
        complete := true;
      } else {
        complete := position < |javascript| && javascript[position] == ',';
        if complete {
          position := position + 1;
        }
      }
    }
  }

  /** Reading is over, or can go on from here. */
  ghost predicate Reading(javascript: string, start: nat, count: nat, literals: seq<string>, position: nat,
          complete: bool)
    requires start <= position <= |javascript| && 0 < count
  {
    if complete then |literals| <= count && ReadSoFar(javascript, start, count, literals, position)
    else Arguments(javascript[start..], count).None?
  }

  method ReadArguments(javascript: string, start: nat, count: nat)
    returns (literals: seq<string>, position: nat, complete: bool)
    requires start <= |javascript| && count > 0
    ensures start <= position <= |javascript|
    ensures Reading(javascript, start, count, literals, position, complete) && (complete ==> |literals| == count)
  {
    ReadNothing(javascript, start, count);
    position := start;
    literals := [];
    complete := true;
    while complete && |literals| < count
      invariant start <= position <= |javascript|
      invariant Reading(javascript, start, count, literals, position, complete)
      invariant |literals| <= count || !complete
      decreases if complete then 1 + count - |literals| else 0
    {
      literals, position, complete := ReadNext(javascript, start, count, literals, position);
    }
  }

  /** The body of the token loop for a call: read the arguments, check what follows, print. */
  method ReadCall(javascript: string, start: nat, f: Function) returns (call: seq<string>)
    requires start <= |javascript|
    ensures call == CallWith(f, javascript[start..])
  {
    var literals, position, complete := ReadArguments(javascript, start, f.Arity());
    call := [];
    if complete {
      ReadAll(javascript, start, f.Arity(), literals, position);
      assert javascript[position..] == javascript[start..][position - start..];
      if StartsWith(javascript[position..], if f.Plural() then ',' else ')') {
        if f.Plural() {
          literals := literals + ["2"];
        }
        call := [f.Name() + "(" + Join(literals, ", ") + ");"];
      }
    }
  }

  /** One step of the scan. */
  lemma CallsStep(s: string, free: bool, word: char -> bool)
    requires s != ""
    ensures var token := TokenAt(s, free);
      var n := if token.Some? then token.value.length else 1;
      var emitted := if token.Some? && token.value.Head? then CallWith(token.value.function_, s[n..]) else [];
      Calls(s, free, word) == emitted + Calls(s[n..], Frees(s[n - 1], word), word)
  {
    hide TokenAt, CallWith, Frees;
    assert forall all: seq<string> :: [] + all == all;
  }

  method LiteralCalls(javascript: string, word: char -> bool) returns (calls: seq<string>)
    ensures calls == Calls(javascript, true, word)
  {
    hide TokenAt, CallWith, Frees, Calls;
    calls := [];
    var at := 0;
    var free := true;
    assert javascript[0..] == javascript;
    ghost var all := Calls(javascript, true, word);
    while at < |javascript|
      invariant at <= |javascript|
      invariant calls + Calls(javascript[at..], free, word) == all
    {
      ghost var here, was := javascript[at..], calls;
      CallsStep(here, free, word);
      var token := TokenAt(javascript[at..], free);
      var n := if token.Some? then token.value.length else 1;
      assert javascript[at + n..] == here[n..];
      ghost var rest := Calls(here[n..], Frees(here[n - 1], word), word);
      if token.Some? && token.value.Head? {
        var call := ReadCall(javascript, at + n, token.value.function_);
        assert was + (call + rest) == (was + call) + rest;
        calls := calls + call;
      } else {
        assert [] + rest == rest;
      }
      free := Frees(javascript[at + n - 1], word);
      at := at + n;
    }
    assert javascript[at..] == "";
    NoCallsInEmpty(free, word);
  }

  lemma NoCallsInEmpty(free: bool, word: char -> bool)
    ensures Calls("", free, word) == []
  {
  }
}
