/** Python's view of characters and the few string operations the scripts share. */
module Text {

  datatype Option<+T> = None | Some(value: T)

  /** `str.isspace` for one character: what `\s` matches and `str.rstrip` drops. */
  predicate IsSpace(c: char) {
    || '\t' <= c <= '\r'
    || '\U{1c}' <= c <= ' '
    || c == '\U{85}' || c == '\U{a0}' || c == '\U{1680}'
    || '\U{2000}' <= c <= '\U{200a}'
    || c == '\U{2028}' || c == '\U{2029}' || c == '\U{202f}' || c == '\U{205f}' || c == '\U{3000}'
  }

  predicate Contains(s: string, part: string) {
    part <= s || (s != "" && Contains(s[1..], part))
  }

  predicate StandsAt(s: string, part: string, i: int) {
    0 <= i <= |s| - |part| && s[i..i + |part|] == part
  }

  /** A part occurs iff it stands at some position. */
  lemma {:induction false} ContainsIff(s: string, part: string)
    ensures Contains(s, part) <==> exists i :: StandsAt(s, part, i)
  {
    if part <= s {
      assert StandsAt(s, part, 0);
    } else if s != "" {
      ContainsIff(s[1..], part);
      if i :| StandsAt(s[1..], part, i) {
        assert StandsAt(s, part, i + 1);
      }
      if i :| StandsAt(s, part, i) {
        assert i != 0;
        assert StandsAt(s[1..], part, i - 1);
      }
    }
  }

  /** `str.rstrip()` */
  function RStrip(s: string): (r: string)
    ensures r <= s
    ensures r != "" ==> !IsSpace(r[|r| - 1])
    ensures forall i :: |r| <= i < |s| ==> IsSpace(s[i])
  {
    if s != "" && IsSpace(s[|s| - 1]) then RStrip(s[..|s| - 1]) else s
  }

  lemma {:induction false} RStripKeeps(s: string, space: string)
    requires s == "" || !IsSpace(s[|s| - 1])
    requires forall c :: c in space ==> IsSpace(c)
    ensures RStrip(s + space) == s
  {
    if space == "" {
      assert s + space == s;
    } else {
      var front := space[..|space| - 1];
      assert (s + space)[..|s + space| - 1] == s + front;
      RStripKeeps(s, front);
    }
  }
}
