/**
 Go strings as sequences of code points.  Records reach the stores through JSON, so their
 strings are valid UTF-8, and for those Go's bytewise `<` is the code point order below.
 */
module Text {

  /** Go's `a < b` on strings. */
  predicate Less(a: string, b: string)
  {
    b != [] && (a == [] || a[0] < b[0] || (a[0] == b[0] && Less(a[1..], b[1..])))
  }

  lemma {:induction false} LessIrreflexive(a: string)
    ensures !Less(a, a)
  {
    if a != [] {
      LessIrreflexive(a[1..]);
    }
  }

  lemma {:induction false} LessNotEmpty(a: string, b: string)
    requires Less(a, b)
    ensures b != ""
  {
  }

  lemma {:induction false} LessTotal(a: string, b: string)
    ensures Less(a, b) || a == b || Less(b, a)
  {
    if a != [] && b != [] && a[0] == b[0] {
      LessTotal(a[1..], b[1..]);
      if a[1..] == b[1..] {
        assert a == [a[0]] + a[1..] && b == [b[0]] + b[1..];
      }
    }
  }

  lemma {:induction false} LessTransitive(a: string, b: string, c: string)
    requires Less(a, b) && Less(b, c)
    ensures Less(a, c)
  {
    if a != [] && a[0] == b[0] == c[0] {
      LessTransitive(a[1..], b[1..], c[1..]);
    }
  }

  lemma {:induction false} LessAsymmetric(a: string, b: string)
    requires Less(a, b)
    ensures !Less(b, a)
  {
    if Less(b, a) {
      LessTransitive(a, b, a);
      LessIrreflexive(a);
    }
  }

  /** `unicode.IsSpace`, the characters `strings.TrimSpace` removes. */
  predicate IsSpace(c: char)
  {
    || c in {'\t', '\n', '\U{000B}', '\U{000C}', '\r', ' ', '\U{0085}', '\U{00A0}', '\U{1680}'}
    || '\U{2000}' <= c <= '\U{200A}'
    || c in {'\U{2028}', '\U{2029}', '\U{202F}', '\U{205F}', '\U{3000}'}
  }

  function TrimLeft(s: string): string
  {
    if s != [] && IsSpace(s[0]) then TrimLeft(s[1..]) else s
  }

  function TrimRight(s: string): string
  {
    if s != [] && IsSpace(s[|s| - 1]) then TrimRight(s[..|s| - 1]) else s
  }

  function TrimSpace(s: string): string
  {
    TrimRight(TrimLeft(s))
  }

  predicate Blank(s: string)
  {
    TrimSpace(s) == ""
  }

  /** `len(s)`: the number of bytes of the UTF-8 encoding. */
  function ByteLen(s: string): nat
  {
    if s == [] then 0
    else
      (if s[0] < '\U{0080}' then 1 else if s[0] < '\U{0800}' then 2 else if s[0] < '\U{10000}' then 3 else 4)
      + ByteLen(s[1..])
  }

  /** The order is lexicographic: at the first difference the smaller character decides, or the shorter string. */
  lemma {:induction false} LessAtFirstDifference(a: string, b: string)
    ensures Less(a, b)
       <==> exists k :: 0 <= k <= |a| && k < |b| && a[..k] == b[..k] && (k == |a| || a[k] < b[k])
  {
    if Less(a, b) {
      if a == [] || a[0] < b[0] {
        assert a[..0] == b[..0];
      } else {
        LessAtFirstDifference(a[1..], b[1..]);
        var k :| 0 <= k <= |a[1..]| && k < |b[1..]| && a[1..][..k] == b[1..][..k]
            && (k == |a[1..]| || a[1..][k] < b[1..][k]);
        assert a[..k + 1] == [a[0]] + a[1..][..k] && b[..k + 1] == [b[0]] + b[1..][..k];
      }
    }
    if k :| 0 <= k <= |a| && k < |b| && a[..k] == b[..k] && (k == |a| || a[k] < b[k]) {
      if k > 0 {
        assert a[0] == a[..k][0] == b[..k][0] == b[0];
        assert a[1..][..k - 1] == a[..k][1..] && b[1..][..k - 1] == b[..k][1..];
        assert k - 1 == |a[1..]| || a[1..][k - 1] < b[1..][k - 1];
        LessAtFirstDifference(a[1..], b[1..]);
      }
    }
  }

  /** The characters of Unicode's White_Space property. */
  lemma {:induction false} SpacesByCodePoint(c: char)
    ensures IsSpace(c) <==>
              || 0x09 <= c as int <= 0x0d || c as int in {0x20, 0x85, 0xa0, 0x1680}
              || 0x2000 <= c as int <= 0x200a || c as int in {0x2028, 0x2029, 0x202f, 0x205f, 0x3000}
  {
  }

  lemma {:induction false} TrimLeftSplits(s: string) returns (k: nat)
    ensures k <= |s| && TrimLeft(s) == s[k..]
    ensures (forall i | 0 <= i < k :: IsSpace(s[i])) && (k < |s| ==> !IsSpace(s[k]))
  {
    hide IsSpace;
    k := 0;
    if s != [] && IsSpace(s[0]) {
      var j := TrimLeftSplits(s[1..]);
      k := j + 1;
      assert s[1..][j..] == s[k..];
      assert forall i | 0 < i < k :: s[i] == s[1..][i - 1];
    }
  }

  lemma {:induction false} TrimRightSplits(s: string) returns (k: nat)
    ensures k <= |s| && TrimRight(s) == s[..k]
    ensures (forall i | k <= i < |s| :: IsSpace(s[i])) && (k > 0 ==> !IsSpace(s[k - 1]))
  {
    hide IsSpace;
    k := |s|;
    if s != [] && IsSpace(s[|s| - 1]) {
      var init := s[..|s| - 1];
      k := TrimRightSplits(init);
      assert init[..k] == s[..k];
      assert forall i | 0 <= i < |init| :: s[i] == init[i];
    }
  }

  /** Trimming cuts away exactly the spaces at both ends. */
  lemma {:induction false} TrimCutsSpaces(s: string) returns (i: nat, j: nat)
    ensures i <= j <= |s| && TrimSpace(s) == s[i..j]
    ensures forall k | 0 <= k < i || j <= k < |s| :: IsSpace(s[k])
    ensures i < j ==> !IsSpace(s[i]) && !IsSpace(s[j - 1])
  {
    hide IsSpace;
    i := TrimLeftSplits(s);
    var n := TrimRightSplits(s[i..]);
    j := i + n;
    assert s[i..][..n] == s[i..j];
    assert forall k | i <= k < |s| :: s[k] == s[i..][k - i];
  }

  lemma {:induction false} BlankIffAllSpaces(s: string)
    ensures Blank(s) <==> forall k | 0 <= k < |s| :: IsSpace(s[k])
  {
    hide IsSpace, TrimSpace;
    var i, j := TrimCutsSpaces(s);
  }

  /** The encoding of a concatenation is as long as both parts. */
  lemma {:induction false} ByteLenAdds(a: string, b: string)
    ensures ByteLen(a + b) == ByteLen(a) + ByteLen(b)
  {
    if a == [] {
      assert a + b == b;
    } else {
      ByteLenAdds(a[1..], b);
      assert (a + b)[1..] == a[1..] + b;
    }
  }

  /** UTF-8 takes one byte below U+0080, two below U+0800, three below U+10000 and four above. */
  lemma {:induction false} ByteLenOfOne(c: char)
    ensures ByteLen([c])
         == if c as int <= 0x7f then 1 else if c as int <= 0x7ff then 2 else if c as int <= 0xffff then 3 else 4
  {
  }

  lemma {:induction false} HexDigit(c: char)
    requires '0' <= c <= '9' || 'a' <= c <= 'f'
    ensures c in "0123456789abcdef"
  {
    var digits := "0123456789abcdef";
    assert digits[if c <= '9' then c as int - '0' as int else c as int - 'a' as int + 10] == c;
  }

  lemma {:induction false} HexRange(c: char)
    requires c in "0123456789abcdef"
    ensures '0' <= c <= '9' || 'a' <= c <= 'f'
  {
  }
}
