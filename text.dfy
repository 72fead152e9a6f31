/** The two Python string operations the extractor relies on: `str.rstrip("\n\r")`
    and the substring test `pat in s`. Strings are sequences of characters. */
module Text {

  /** The characters that `rstrip("\n\r")` removes. */
  predicate IsEol(c: char) {
    c == '\n' || c == '\r'
  }

  /** `s.rstrip("\n\r")`: drops the trailing run of line-feed and carriage-return
      characters and nothing else. */
  function RstripEol(s: string): (r: string)
    ensures r <= s
    ensures r == [] || !IsEol(r[|r| - 1])
    ensures forall k :: |r| <= k < |s| ==> IsEol(s[k])
  {
    if |s| > 0 && IsEol(s[|s| - 1]) then RstripEol(s[..|s| - 1]) else s
  }

  /** Appending any run of line terminators to a line that does not end in one
      and stripping again gives back exactly that line. */
  lemma {:induction false} RstripEolUndoesTerminators(t: string, e: string)
    requires t == [] || !IsEol(t[|t| - 1])
    requires forall k :: 0 <= k < |e| ==> IsEol(e[k])
    ensures RstripEol(t + e) == t
  {
    if e == [] {
      assert t + e == t;
    } else {
      var e' := e[..|e| - 1];
      assert (t + e)[..|t + e| - 1] == t + e';
      RstripEolUndoesTerminators(t, e');
    }
  }

  /** `pat` occurs in `s` starting at position `i`. */
  predicate OccursAt(pat: string, s: string, i: int) {
    0 <= i && i + |pat| <= |s| && s[i..i + |pat|] == pat
  }

  /** Python's `pat in s`. */
  function Contains(s: string, pat: string): (b: bool)
    ensures b <==> exists i :: OccursAt(pat, s, i)
    decreases |s|
  {
    if |s| < |pat| then false
    else if s[..|pat|] == pat then (assert OccursAt(pat, s, 0); true)
    else
      var b := Contains(s[1..], pat);
      assert b ==> exists i :: OccursAt(pat, s, i) by {
        if b {
          var i :| OccursAt(pat, s[1..], i);
          assert s[i + 1..i + 1 + |pat|] == s[1..][i..i + |pat|];
          assert OccursAt(pat, s, i + 1);
        }
      }
      assert (exists i :: OccursAt(pat, s, i)) ==> b by {
        if exists i :: OccursAt(pat, s, i) {
          var i :| OccursAt(pat, s, i);
          assert i != 0;
          assert s[1..][i - 1..i - 1 + |pat|] == s[i..i + |pat|];
          assert OccursAt(pat, s[1..], i - 1);
        }
      }
      b
  }
}
