/** The Python string operations used by tools/check_pnpm_audit_exceptions.py. */
module PyText {

  /** The code points removed by Python's str.strip(). */
  predicate IsSpace(c: char) {
    || '\t' <= c <= '\r'
    || '\U{1c}' <= c <= ' '
    || c == '\U{85}' || c == '\U{a0}' || c == '\U{1680}'
    || '\U{2000}' <= c <= '\U{200a}'
    || c == '\U{2028}' || c == '\U{2029}' || c == '\U{202f}' || c == '\U{205f}' || c == '\U{3000}'
  }

  /** The same code points, one by one. */
  const SPACES: string :=
    "\t\n\U{b}\U{c}\r\U{1c}\U{1d}\U{1e}\U{1f} \U{85}\U{a0}\U{1680}"
    + "\U{2000}\U{2001}\U{2002}\U{2003}\U{2004}\U{2005}\U{2006}\U{2007}\U{2008}\U{2009}\U{200a}"
    + "\U{2028}\U{2029}\U{202f}\U{205f}\U{3000}"

  lemma SpacesExactly(c: char)
    ensures IsSpace(c) <==> c in SPACES
  {
  }

  function LStrip(s: string): (r: string)
    ensures r == [] || !IsSpace(r[0])
    ensures |r| <= |s|
  {
    if s != [] && IsSpace(s[0]) then LStrip(s[1..]) else s
  }

  /** What LStrip cuts off is the white space in front. */
  lemma {:induction false} LStripCuts(s: string)
    ensures LStrip(s) == s[|s| - |LStrip(s)|..]
    ensures forall i :: 0 <= i < |s| - |LStrip(s)| ==> IsSpace(s[i])
  {
    hide IsSpace;
    if s != [] && IsSpace(s[0]) {
      LStripCuts(s[1..]);
    }
  }

  function RStrip(s: string): (r: string)
    ensures r == [] || !IsSpace(r[|r| - 1])
    ensures r <= s
  {
    if s != [] && IsSpace(s[|s| - 1]) then RStrip(s[..|s| - 1]) else s
  }

  /** str.strip(): no white space is left at either end. */
  function Strip(s: string): (r: string)
    ensures r != [] ==> !IsSpace(r[0]) && !IsSpace(r[|r| - 1])
    ensures |r| <= |s|
  {
    RStrip(LStrip(s))
  }

  /** A text whose ends are not white space. */
  predicate Trimmed(s: string) {
    s != [] ==> !IsSpace(s[0]) && !IsSpace(s[|s| - 1])
  }

  lemma StripTrimmed(s: string)
    requires Trimmed(s)
    ensures Strip(s) == s
  {
  }

  lemma {:induction false} LStripLeading(pad: string, s: string)
    requires forall c | c in pad :: IsSpace(c)
    requires s != [] && !IsSpace(s[0])
    ensures LStrip(pad + s) == s
  {
    hide IsSpace;
    if pad == [] {
      assert pad + s == s;
    } else {
      assert pad[0] in pad && forall c :: c in pad[1..] ==> c in pad;
      LStripLeading(pad[1..], s);
      var all := pad + s;
      assert all[1..] == pad[1..] + s && all[0] == pad[0];
      assert LStrip(all) == LStrip(all[1..]);
    }
  }

  /** White space in front of a trimmed, non-empty text is removed, and nothing else. */
  lemma StripLeading(pad: string, s: string)
    requires forall c | c in pad :: IsSpace(c)
    requires s != [] && Trimmed(s)
    ensures Strip(pad + s) == s
  {
    LStripLeading(pad, s);
  }

  lemma {:induction false} RStripTrailing(s: string, pad: string)
    requires forall c | c in pad :: IsSpace(c)
    requires s == [] || !IsSpace(s[|s| - 1])
    ensures RStrip(s + pad) == s
  {
    hide IsSpace;
    if pad == [] {
      assert s + pad == s;
    } else {
      var n := |pad| - 1;
      var all := s + pad;
      assert pad[n] in pad && forall c :: c in pad[..n] ==> c in pad;
      assert all[..|all| - 1] == s + pad[..n] && all[|all| - 1] == pad[n];
      RStripTrailing(s, pad[..n]);
    }
  }

  /** strip() takes the white space off both ends of a text and nothing else; every text has this form. */
  lemma StripBoth(before: string, s: string, after: string)
    requires forall c | c in before + after :: IsSpace(c)
    requires s != [] && Trimmed(s)
    ensures Strip(before + s + after) == s
  {
    hide IsSpace;
    assert forall c :: c in before ==> c in before + after;
    assert forall c :: c in after ==> c in before + after;
    assert before + s + after == before + (s + after);
    assert (s + after)[0] == s[0];
    LStripLeading(before, s + after);
    RStripTrailing(s, after);
  }

  lemma {:induction false} LStripKeeps(s: string, c: char)
    requires !IsSpace(c)
    ensures c in LStrip(s) <==> c in s
  {
    if s != [] && IsSpace(s[0]) {
      assert s == [s[0]] + s[1..];
      LStripKeeps(s[1..], c);
    }
  }

  lemma {:induction false} RStripKeeps(s: string, c: char)
    requires !IsSpace(c)
    ensures c in RStrip(s) <==> c in s
  {
    if s != [] && IsSpace(s[|s| - 1]) {
      assert s == s[..|s| - 1] + [s[|s| - 1]];
      RStripKeeps(s[..|s| - 1], c);
    }
  }

  /** Stripping never removes a character that is not white space. */
  lemma StripKeeps(s: string, c: char)
    requires !IsSpace(c)
    ensures c in Strip(s) <==> c in s
  {
    LStripKeeps(s, c);
    RStripKeeps(LStrip(s), c);
  }

  /** The position of the first c in s, or |s|. */
  function IndexOf(s: string, c: char): (i: nat)
    ensures i <= |s|
    ensures i < |s| ==> s[i] == c
    ensures c !in s[..i]
    ensures i < |s| <==> c in s
  {
    if s == [] then 0
    else if s[0] == c then 0
    else
      var i := IndexOf(s[1..], c) + 1;
      assert s[..i] == [s[0]] + s[1..][..i - 1];
      assert s == [s[0]] + s[1..];
      i
  }

  lemma IndexOfAt(s: string, c: char, i: nat)
    requires i < |s| && s[i] == c && c !in s[..i]
    ensures IndexOf(s, c) == i
  {
  }
}
