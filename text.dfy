/** The string tests the stack matcher applies to stack names and template descriptions. */
module Text {

  /** Python's `s.startswith(prefix)`. */
  predicate StartsWith(s: string, prefix: string) {
    |prefix| <= |s| && s[..|prefix|] == prefix
  }

  /** `sub` occurs in `text` starting at position `i`. */
  predicate OccursAt(text: string, sub: string, i: int) {
    0 <= i && i + |sub| <= |text| && text[i..i + |sub|] == sub
  }

  /** Python's `sub in text` on strings. */
  predicate Contains(text: string, sub: string)
    decreases |text|
  {
    StartsWith(text, sub) || (text != [] && Contains(text[1..], sub))
  }

  /** Python's `str.lower()` restricted to ASCII: only 'A'..'Z' change. */
  function LowerChar(c: char): char {
    if 'A' <= c <= 'Z' then (c as int + 32) as char else c
  }

  function Lower(s: string): string {
    seq(|s|, i requires 0 <= i < |s| => LowerChar(s[i]))
  }

  /** `Contains` finds exactly the positions where `sub` occurs. */
  lemma {:induction false} ContainsIffOccurs(text: string, sub: string)
    ensures Contains(text, sub) <==> exists i :: OccursAt(text, sub, i)
    decreases |text|
  {
    if StartsWith(text, sub) {
      assert OccursAt(text, sub, 0);
    } else if text == [] {
      assert forall i :: !OccursAt(text, sub, i);
    } else {
      ContainsIffOccurs(text[1..], sub);
      if i :| OccursAt(text[1..], sub, i) {
        assert text[i + 1..i + 1 + |sub|] == text[1..][i..i + |sub|];
        assert OccursAt(text, sub, i + 1);
      }
      if i :| OccursAt(text, sub, i) {
        assert i != 0;
        assert text[1..][i - 1..i - 1 + |sub|] == text[i..i + |sub|];
        assert OccursAt(text[1..], sub, i - 1);
      }
    }
  }

  /** The lowercased text contains "s3" exactly when the original has an 's'
      or an 'S' immediately followed by a '3': the test is case-insensitive
      in the letter and nothing else. */
  lemma LowerContainsS3(d: string)
    ensures Contains(Lower(d), "s3") <==>
            exists i :: 0 <= i < |d| - 1 && (d[i] == 's' || d[i] == 'S') && d[i + 1] == '3'
  {
    var l := Lower(d);
    ContainsIffOccurs(l, "s3");
    if i :| OccursAt(l, "s3", i) {
      assert l[i] == l[i..i + 2][0] && l[i + 1] == l[i..i + 2][1];
      assert (d[i] == 's' || d[i] == 'S') && d[i + 1] == '3';
    }
    if i :| 0 <= i < |d| - 1 && (d[i] == 's' || d[i] == 'S') && d[i + 1] == '3' {
      assert l[i..i + 2] == "s3";
      assert OccursAt(l, "s3", i);
    }
  }
}
