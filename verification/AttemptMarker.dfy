/**
 The durable memory of the merge train: a comment in the pull request body that names the
 latest commit for which an update was already attempted (scripts/merge_train.py:52, 121-123,
 252-256). `Search` and `RemoveAll` are `ATTEMPT_MARKER.search` and `ATTEMPT_MARKER.sub("")`.
 */
module AttemptMarker {
  import opened Text

  datatype Marker = Marker(oid: string, refused: bool)

  const OPEN := "<!-- merge-train-base:"
  const REFUSED := ":refused -->"
  const CLOSE := " -->"

  predicate IsHex(c: char) {
    '0' <= c <= '9' || 'a' <= c <= 'f'
  }

  /** A full object name, as the pattern demands and GitHub reports it. */
  predicate IsOid(s: string) {
    |s| == 40 && forall c :: c in s ==> IsHex(c)
  }

  function Tail(refused: bool): string {
    if refused then REFUSED else CLOSE
  }

  function MarkerText(m: Marker): string {
    OPEN + m.oid + Tail(m.refused)
  }

  /** The marker that starts at the first character of `s`, if one does. */
  function MatchAt(s: string): (r: Option<Marker>)
    ensures r.Some? ==> IsOid(r.value.oid) && MarkerText(r.value) <= s
    ensures r.None? ==> forall m: Marker :: IsOid(m.oid) ==> !(MarkerText(m) <= s)
  {
    if OPEN <= s && |s| >= 62 && IsOid(s[22..62]) then
      var oid, rest := s[22..62], s[62..];
      assert s == OPEN + oid + rest;
      if REFUSED <= rest then Prefixed(s, oid, rest, REFUSED); Some(Marker(oid, true))
      else if CLOSE <= rest then Prefixed(s, oid, rest, CLOSE); Some(Marker(oid, false))
      else NotMarked(s); None
    else
      NotMarked(s);
      None
  }

  lemma Prefixed(s: string, oid: string, rest: string, tail: string)
    requires s == OPEN + oid + rest && tail <= rest
    ensures OPEN + oid + tail <= s
  {
    assert rest == tail + rest[|tail|..];
    assert s == OPEN + oid + tail + rest[|tail|..];
  }

  lemma NotMarked(s: string)
    requires !(OPEN <= s && |s| >= 62 && IsOid(s[22..62]) && (REFUSED <= s[62..] || CLOSE <= s[62..]))
    ensures forall m: Marker :: IsOid(m.oid) ==> !(MarkerText(m) <= s)
  {
    forall m: Marker | IsOid(m.oid) ensures !(MarkerText(m) <= s) {
      if MarkerText(m) <= s {
        MarkerParts(m, s);
      }
    }
  }

  lemma MarkerParts(m: Marker, s: string)
    requires IsOid(m.oid) && MarkerText(m) <= s
    ensures OPEN <= s && |s| >= 66 && s[22..62] == m.oid && Tail(m.refused) <= s[62..]
  {
    var rest := s[|MarkerText(m)|..];
    assert s == OPEN + (m.oid + (Tail(m.refused) + rest));
    assert s[22..] == m.oid + (Tail(m.refused) + rest);
    assert s[62..] == Tail(m.refused) + rest;
  }

  /** A text starts with at most one marker, and `MatchAt` finds it. */
  lemma MatchAtFinds(m: Marker, rest: string)
    requires IsOid(m.oid)
    ensures MatchAt(MarkerText(m) + rest) == Some(m)
  {
    var s := MarkerText(m) + rest;
    assert MarkerText(m) <= s;
    var found := MatchAt(s).value;
    MarkerParts(m, s);
    MarkerParts(found, s);
    assert REFUSED[0] != CLOSE[0];
  }

  lemma MarkerHasNoLineBreak(m: Marker)
    requires IsOid(m.oid)
    ensures '\n' !in MarkerText(m)
    ensures |MarkerText(m)| >= 66 && !IsSpace(MarkerText(m)[|MarkerText(m)| - 1])
  {
    assert '\n' !in OPEN && '\n' !in Tail(m.refused);
    assert forall c :: c in m.oid ==> IsHex(c) && c != '\n';
    assert MarkerText(m)[|MarkerText(m)| - 1] == '>';
  }

  /** The first marker in the text. */
  function Search(s: string): (r: Option<Marker>)
    ensures r.Some? ==> IsOid(r.value.oid)
  {
    var here := MatchAt(s);
    if here.Some? then here
    else if s == "" then None
    else Search(s[1..])
  }

  /** The text without its markers; one pass from left to right. */
  function RemoveAll(s: string): string {
    if s == "" then ""
    else
      var here := MatchAt(s);
      if here.Some? then
        assert |MarkerText(here.value)| > 0;
        RemoveAll(s[|MarkerText(here.value)|..])
      else [s[0]] + RemoveAll(s[1..])
  }

  /** The body that `_record_attempt` sends to GitHub. */
  function Record(body: string, oid: string, refused: bool): string {
    var rest := RStrip(RemoveAll(body));
    var marker := MarkerText(Marker(oid, refused));
    if rest != "" then rest + "\n\n" + marker else marker
  }

  /** Removing the markers does not splice a new one together. */
  predicate Clean(body: string) {
    Search(RemoveAll(body)).None?
  }

  // ----- proofs

  lemma PrefixBefore(text: string, s: string, rest: string)
    requires text <= s + "\n" + rest && '\n' !in text
    ensures text <= s
  {
    var whole := s + "\n" + rest;
    assert whole[|s|] == '\n';
    assert forall i {:trigger whole[i]} :: 0 <= i < |text| ==> whole[i] == text[i];
  }

  lemma PrefixTrim(text: string, s: string, space: string)
    requires text <= s + space
    requires text != "" && !IsSpace(text[|text| - 1])
    requires forall c :: c in space ==> IsSpace(c)
    ensures text <= s
  {
    var whole := s + space;
    assert whole[|text| - 1] == text[|text| - 1];
    assert forall i {:trigger whole[i]} :: |s| <= i < |whole| ==> whole[i] in space;
  }

  /** A match cannot begin in `s` and end behind a line break that follows it. */
  lemma NoMatchAcross(s: string, rest: string)
    requires MatchAt(s).None?
    ensures MatchAt(s + "\n" + rest).None?
  {
    var found := MatchAt(s + "\n" + rest);
    if found.Some? {
      MarkerHasNoLineBreak(found.value);
      PrefixBefore(MarkerText(found.value), s, rest);
    }
  }

  lemma SearchStep(s: string)
    requires MatchAt(s).None? || Search(s).None?
    ensures MatchAt(s).None?
    ensures s != "" ==> Search(s) == Search(s[1..]) && RemoveAll(s) == [s[0]] + RemoveAll(s[1..])
  {
    hide MatchAt, MarkerText;
  }

  lemma {:induction false} SearchAcross(s: string, rest: string)
    requires Search(s).None?
    ensures Search(s + "\n" + rest) == Search(rest)
    ensures RemoveAll(s + "\n" + rest) == s + "\n" + RemoveAll(rest)
    decreases |s|
  {
    hide MarkerText, MatchAt, Search, RemoveAll;
    SearchStep(s);
    NoMatchAcross(s, rest);
    var whole := s + "\n" + rest;
    SearchStep(whole);
    if s == "" {
      NothingInEmpty();
      assert whole == ['\n'] + rest;
    } else {
      SearchAcross(s[1..], rest);
      assert whole == [s[0]] + (s[1..] + "\n" + rest);
      assert s + "\n" + RemoveAll(rest) == [s[0]] + (s[1..] + "\n" + RemoveAll(rest));
    }
  }

  lemma {:induction false} SearchPrefix(s: string, space: string)
    requires forall c :: c in space ==> IsSpace(c)
    ensures Search(s + space) == Search(s)
    decreases |s| + |space|
  {
    hide MarkerText, MatchAt;
    var whole := s + space;
    if MatchAt(s).Some? {
      var m := MatchAt(s).value;
      assert whole == MarkerText(m) + (s[|MarkerText(m)|..] + space);
      MatchAtFinds(m, s[|MarkerText(m)|..] + space);
    } else if MatchAt(whole).Some? {
      MarkerHasNoLineBreak(MatchAt(whole).value);
      PrefixTrim(MarkerText(MatchAt(whole).value), s, space);
    } else if s != "" {
      SearchPrefix(s[1..], space);
      assert whole[1..] == s[1..] + space;
    } else if space != "" {
      assert whole[1..] == "" + space[1..];
      SearchPrefix("", space[1..]);
      assert whole == space;
    }
  }

  lemma NothingInEmpty()
    ensures Search("").None? && RemoveAll("") == "" && RStrip("") == ""
  {
  }

  lemma SearchRStrip(s: string)
    ensures Search(RStrip(s)) == Search(s)
  {
    var r := RStrip(s);
    assert s == r + s[|r|..];
    SearchPrefix(r, s[|r|..]);
  }

  lemma SearchMarker(m: Marker)
    requires IsOid(m.oid)
    ensures Search(MarkerText(m)) == Some(m)
    ensures RemoveAll(MarkerText(m)) == ""
  {
    MatchAtFinds(m, "");
    assert MarkerText(m) + "" == MarkerText(m);
  }

  /** The found marker is the first one, so what stands behind a text that has one is irrelevant. */
  lemma {:induction false} SearchFirst(s: string, rest: string)
    requires Search(s).Some?
    ensures Search(s + rest) == Search(s)
    decreases |s|
  {
    hide MarkerText, MatchAt;
    if MatchAt(s).Some? {
      var m := MatchAt(s).value;
      assert s + rest == MarkerText(m) + (s[|MarkerText(m)|..] + rest);
      MatchAtFinds(m, s[|MarkerText(m)|..] + rest);
    } else if s != "" {
      SearchFirst(s[1..], rest);
      assert (s + rest)[1..] == s[1..] + rest;
      SpliceIsLater(s, rest);
    }
  }

  /** A match that begins in `s` cannot swallow the beginning of a marker that lies in `s`. */
  lemma SpliceIsLater(s: string, rest: string)
    requires s != "" && Search(s[1..]).Some? && MatchAt(s).None?
    ensures MatchAt(s + rest).None?
  {
    if MatchAt(s + rest).Some? {
      hide Search;
      var i := MarkerPosition(s[1..]);
      assert s[i + 1] == s[1..][i];
      MatchIsShort(MatchAt(s + rest).value, s, rest, i + 1);
    }
  }

  lemma MatchIsShort(m: Marker, s: string, rest: string, i: nat)
    requires IsOid(m.oid) && MarkerText(m) <= s + rest
    requires 0 < i < |s| && s[i] == '<'
    ensures MarkerText(m) <= s
  {
    if |MarkerText(m)| > |s| {
      assert (s + rest)[i] == MarkerText(m)[i];
      OnlyOneOpen(m, i);
    }
  }

  lemma {:induction false} MarkerPosition(s: string) returns (i: nat)
    requires Search(s).Some?
    ensures i < |s| && s[i] == '<'
  {
    if MatchAt(s).Some? {
      i := 0;
      assert MarkerText(MatchAt(s).value)[0] == '<';
    } else {
      var j := MarkerPosition(s[1..]);
      i := j + 1;
    }
  }

  lemma OnlyOneOpen(m: Marker, i: nat)
    requires IsOid(m.oid) && 0 < i < |MarkerText(m)|
    ensures MarkerText(m)[i] != '<'
  {
    var text := MarkerText(m);
    if i < 22 {
      assert text[i] == OPEN[i];
    } else if i < 62 {
      assert text[i] == m.oid[i - 22] && m.oid[i - 22] in m.oid;
    } else {
      assert text[i] == Tail(m.refused)[i - 62];
    }
  }

  // ----- main results

  /**
   What the next run reads back after an attempt was recorded: the recorded marker if removing
   the old markers left none, and otherwise the one that the removal spliced together.
   */
  lemma ReadBack(body: string, oid: string, refused: bool)
    requires IsOid(oid)
    ensures Search(Record(body, oid, refused))
         == if Clean(body) then Some(Marker(oid, refused)) else Search(RemoveAll(body))
  {
    hide MarkerText, MatchAt, Search, RemoveAll, RStrip;
    var rest := RStrip(RemoveAll(body));
    var m := Marker(oid, refused);
    SearchRStrip(RemoveAll(body));
    SearchMarker(m);
    NothingInEmpty();
    if rest != "" {
      assert rest + "\n\n" + MarkerText(m) == rest + "\n" + ("\n" + MarkerText(m));
      assert "\n" + MarkerText(m) == "" + "\n" + MarkerText(m);
      if Clean(body) {
        SearchAcross(rest, "\n" + MarkerText(m));
        SearchAcross("", MarkerText(m));
      } else {
        SearchFirst(rest, "\n\n" + MarkerText(m));
        assert rest + "\n\n" + MarkerText(m) == rest + ("\n\n" + MarkerText(m));
      }
    }
  }

  /** A body with a recorded attempt is clean, so every later record is read back exactly. */
  lemma RecordIsClean(body: string, oid: string, refused: bool)
    requires IsOid(oid) && Clean(body)
    ensures Clean(Record(body, oid, refused))
    ensures RStrip(RemoveAll(Record(body, oid, refused))) == RStrip(RemoveAll(body))
  {
    hide MarkerText, MatchAt, Search, RemoveAll, RStrip;
    var rest := RStrip(RemoveAll(body));
    var m := Marker(oid, refused);
    SearchRStrip(RemoveAll(body));
    SearchMarker(m);
    NothingInEmpty();
    if rest != "" {
      assert rest + "\n\n" + MarkerText(m) == rest + "\n" + ("\n" + MarkerText(m));
      assert "\n" + MarkerText(m) == "" + "\n" + MarkerText(m);
      SearchAcross(rest, "\n" + MarkerText(m));
      SearchAcross("", MarkerText(m));
      assert RemoveAll(Record(body, oid, refused)) == rest + "\n\n" by {
        assert RemoveAll("\n" + MarkerText(m)) == "" + "\n" + "";
        assert rest + "\n" + "\n" == rest + "\n\n";
      }
      SearchPrefix(rest, "\n\n");
      RStripKeeps(rest, "\n\n");
    }
  }

  /** A text in which a marker is found gets shorter when the markers are removed. */
  lemma {:induction false} RemoveShortens(s: string)
    ensures |RemoveAll(s)| <= |s|
    ensures Search(s).Some? ==> |RemoveAll(s)| < |s|
  {
    hide MarkerText;
    if MatchAt(s).Some? {
      var n := |MarkerText(MatchAt(s).value)|;
      MarkerHasNoLineBreak(MatchAt(s).value);
      RemoveShortens(s[n..]);
    } else if s != "" {
      RemoveShortens(s[1..]);
    }
  }

  lemma MatchBeforeLine(s: string, rest: string)
    ensures MatchAt(s + "\n" + rest) == MatchAt(s)
  {
    hide MatchAt, MarkerText;
    if MatchAt(s).Some? {
      var text := MarkerText(MatchAt(s).value);
      assert s + "\n" + rest == text + (s[|text|..] + "\n" + rest);
      MatchAtFinds(MatchAt(s).value, s[|text|..] + "\n" + rest);
    } else {
      NoMatchAcross(s, rest);
    }
  }

  lemma RemoveStep(s: string)
    requires s != ""
    ensures var here := MatchAt(s);
      RemoveAll(s) == if here.Some? then RemoveAll(s[|MarkerText(here.value)|..]) else [s[0]] + RemoveAll(s[1..])
  {
    hide MatchAt, MarkerText;
  }

  /** No marker reaches over a line break, so the lines are cleaned one by one. */
  lemma {:induction false} RemoveByLine(s: string, rest: string)
    ensures RemoveAll(s + "\n" + rest) == RemoveAll(s) + "\n" + RemoveAll(rest)
    decreases |s|
  {
    hide MatchAt, MarkerText, RemoveAll;
    var whole := s + "\n" + rest;
    MatchBeforeLine(s, rest);
    RemoveStep(whole);
    if s == "" {
      NothingInEmpty();
      SearchStep("");
      assert whole == ['\n'] + rest;
      assert RemoveAll("") + "\n" + RemoveAll(rest) == ['\n'] + RemoveAll(rest);
    } else {
      RemoveStep(s);
      if MatchAt(s).Some? {
        var n := |MarkerText(MatchAt(s).value)|;
        MarkerHasNoLineBreak(MatchAt(s).value);
        RemoveByLine(s[n..], rest);
        assert whole[n..] == s[n..] + "\n" + rest;
      } else {
        RemoveByLine(s[1..], rest);
        assert whole[1..] == s[1..] + "\n" + rest;
        var tail := RemoveAll(s[1..]);
        assert [s[0]] + tail + "\n" + RemoveAll(rest) == [s[0]] + (tail + "\n" + RemoveAll(rest));
      }
    }
  }

  lemma RStripDrops(s: string, space: string)
    requires forall c :: c in space ==> IsSpace(c)
    ensures |RStrip(s + space)| <= |s|
  {
    var whole := s + space;
    assert forall i {:trigger whole[i]} :: |s| <= i < |whole| ==> whole[i] in space;
    assert RStrip(whole) <= whole;
  }

  /** When the removal leaves a marker, the next removal takes that one too, and the text has shrunk. */
  lemma LeftoverShrinks(body: string, m: Marker)
    requires IsOid(m.oid) && !Clean(body)
    ensures RStrip(RemoveAll(body)) != ""
    ensures |RStrip(RemoveAll(Record(body, m.oid, m.refused)))| < |RStrip(RemoveAll(body))|
  {
    hide MarkerText, MatchAt, Search, RemoveAll, RStrip, IsOid;
    var rest := RStrip(RemoveAll(body));
    SearchRStrip(RemoveAll(body));
    SearchMarker(m);
    NothingInEmpty();
    RemoveShortens(rest);
    assert rest + "\n\n" + MarkerText(m) == rest + "\n" + ("\n" + MarkerText(m));
    assert "\n" + MarkerText(m) == "" + "\n" + MarkerText(m);
    RemoveByLine(rest, "\n" + MarkerText(m));
    RemoveByLine("", MarkerText(m));
    assert RemoveAll(rest) + "\n" + ("" + "\n" + "") == RemoveAll(rest) + "\n\n";
    RStripDrops(RemoveAll(rest), "\n\n");
  }

  /** Recording again replaces the marker, so that nothing accumulates, exactly if removing the old ones left none. */
  lemma RecordReplacesIff(body: string, first: Marker, second: Marker)
    requires IsOid(first.oid) && IsOid(second.oid)
    ensures Record(Record(body, first.oid, first.refused), second.oid, second.refused)
         == Record(body, second.oid, second.refused)
       <==> Clean(body)
  {
    if Clean(body) {
      RecordIsClean(body, first.oid, first.refused);
    } else {
      LeftoverShrinks(body, first);
      hide RemoveAll, RStrip, MarkerText, IsOid;
      var marker := MarkerText(second);
      var rest, less := RStrip(RemoveAll(body)), RStrip(RemoveAll(Record(body, first.oid, first.refused)));
      assert Record(body, second.oid, second.refused) == rest + "\n\n" + marker;
      assert |if less != "" then less + "\n\n" + marker else marker| < |rest + "\n\n" + marker|;
    }
  }

  lemma MatchHasOneOpen(s: string)
    requires MatchAt(s).Some?
    ensures |s| >= 66 && s[0] == '<' && forall i :: 0 < i < 66 ==> s[i] != '<'
  {
    var m := MatchAt(s).value;
    MarkerHasNoLineBreak(m);
    assert MarkerText(m)[0] == '<' == s[0];
    forall i | 0 < i < 66 ensures s[i] != '<' {
      OnlyOneOpen(m, i);
      assert s[i] == MarkerText(m)[i];
    }
  }

  lemma PlainStart(s: string)
    requires s != "" && s[0] != '<'
    ensures MatchAt(s).None?
    ensures Search(s) == Search(s[1..])
    ensures RemoveAll(s) == [s[0]] + RemoveAll(s[1..])
  {
    if MatchAt(s).Some? {
      MatchHasOneOpen(s);
    }
    SearchStep(s);
  }

  /** Text without `<` is neither searched nor removed. */
  lemma {:induction false} PlainText(s: string, rest: string)
    requires '<' !in s
    ensures Search(s + rest) == Search(rest)
    ensures RemoveAll(s + rest) == s + RemoveAll(rest)
  {
    hide MarkerText, MatchAt, Search, RemoveAll;
    if s == "" {
      assert s + rest == rest;
    } else {
      PlainText(s[1..], rest);
      assert s + rest == [s[0]] + (s[1..] + rest);
      PlainStart(s + rest);
    }
  }

  /** What an author wrote without any `<` stays as it is, up to the space at its end, with the marker behind it. */
  lemma RecordKeepsText(body: string, oid: string, refused: bool)
    requires '<' !in body && IsOid(oid)
    ensures Record(body, oid, refused)
         == (if RStrip(body) == "" then "" else RStrip(body) + "\n\n")
            + "<!-- merge-train-base:" + oid + (if refused then ":refused -->" else " -->")
    ensures Clean(body)
  {
    PlainIsKept(body);
    var front := if RStrip(body) == "" then "" else RStrip(body) + "\n\n";
    hide Search, RemoveAll, RStrip;
    assert Record(body, oid, refused) == front + MarkerText(Marker(oid, refused));
    hide *;
    InFront(front, oid, refused);
  }

  lemma PlainIsKept(body: string)
    requires '<' !in body
    ensures RemoveAll(body) == body && Clean(body)
  {
    hide Search, RemoveAll;
    PlainText(body, "");
    NothingInEmpty();
    assert body + "" == body;
  }

  lemma InFront(front: string, oid: string, refused: bool)
    ensures front + MarkerText(Marker(oid, refused))
         == front + "<!-- merge-train-base:" + oid + (if refused then ":refused -->" else " -->")
  {
    Regroup(front, OPEN, oid, Tail(refused));
  }

  lemma Regroup(a: string, b: string, c: string, d: string)
    ensures a + (b + c + d) == a + b + c + d
  {
  }

  const SPLICE_LEFT := "!-- merge-"
  const SPLICE_RIGHT := "train-base:"

  /** A marker around whose text the two halves of another one are written. */
  function Spliced(inner: Marker, stale: string): string {
    "<" + (SPLICE_LEFT + (MarkerText(inner) + (SPLICE_RIGHT + stale + CLOSE)))
  }

  lemma SplicedIsMarker(stale: string)
    requires IsOid(stale)
    ensures "<" + (SPLICE_LEFT + (SPLICE_RIGHT + stale + CLOSE)) == MarkerText(Marker(stale, false))
    ensures '<' !in SPLICE_LEFT && '<' !in SPLICE_RIGHT + stale + CLOSE
  {
    assert "<" + SPLICE_LEFT + SPLICE_RIGHT == OPEN;
    assert "<" + (SPLICE_LEFT + (SPLICE_RIGHT + stale + CLOSE)) == ("<" + SPLICE_LEFT + SPLICE_RIGHT) + stale + CLOSE;
  }

  lemma SplicedStart(inner: Marker, stale: string)
    requires IsOid(inner.oid)
    ensures MatchAt(Spliced(inner, stale)).None?
  {
    var text := Spliced(inner, stale);
    assert text[11] == MarkerText(inner)[0] == OPEN[0] == '<';
    if MatchAt(text).Some? {
      MatchHasOneOpen(text);
    }
  }

  lemma SplicedParts(inner: Marker, stale: string)
    requires IsOid(inner.oid) && IsOid(stale)
    ensures Search(Spliced(inner, stale)) == Some(inner)
    ensures RemoveAll(Spliced(inner, stale)) == MarkerText(Marker(stale, false))
  {
    hide MarkerText, MatchAt, IsOid;
    var right := SPLICE_RIGHT + stale + CLOSE;
    var text := Spliced(inner, stale);
    SplicedIsMarker(stale);
    SplicedStart(inner, stale);
    assert text[1..] == SPLICE_LEFT + (MarkerText(inner) + right);
    PlainText(SPLICE_LEFT, MarkerText(inner) + right);
    MatchAtFinds(inner, right);
    MarkerHasNoLineBreak(inner);
    assert (MarkerText(inner) + right)[|MarkerText(inner)|..] == right;
    PlainText(right, "");
    NothingInEmpty();
    assert right + "" == right;
  }

  /**
   Why the body has to be clean. Removing the inner marker of a spliced text joins the halves around
   it, and the next run reads the stale commit instead of the one whose attempt was just recorded.
   */
  lemma SplicedMarkerHidesTheAttempt(stale: string, latest: string, refused: bool)
    requires IsOid(stale) && IsOid(latest) && stale != latest
    ensures !Clean(Spliced(Marker(latest, refused), stale))
    ensures Search(Spliced(Marker(latest, refused), stale)) == Some(Marker(latest, refused))
    ensures Search(Record(Spliced(Marker(latest, refused), stale), latest, refused)) == Some(Marker(stale, false))
  {
    hide MarkerText, MatchAt, Search, RemoveAll, Record, Spliced;
    SplicedParts(Marker(latest, refused), stale);
    SearchMarker(Marker(stale, false));
    ReadBack(Spliced(Marker(latest, refused), stale), latest, refused);
  }
}
