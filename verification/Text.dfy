/** The string operations the monitor relies on: trimming, blank tests, ASCII case
    mapping and the order Go gives to strings. */
module Text {

  /** The characters of Unicode's White_Space property. */
  predicate IsSpace(c: char) {
    var n := c as int;
    || 0x09 <= n <= 0x0D || n == 0x20 || n == 0x85 || n == 0xA0 || n == 0x1680
    || 0x2000 <= n <= 0x200A || n == 0x2028 || n == 0x2029 || n == 0x202F || n == 0x205F || n == 0x3000
  }

  function TrimLeft(s: string): (r: string)
    ensures |r| <= |s|
    ensures r != [] ==> !IsSpace(r[0])
  {
    if s != [] && IsSpace(s[0]) then TrimLeft(s[1..]) else s
  }

  function TrimRight(s: string): (r: string)
    ensures r <= s
    ensures r != [] ==> !IsSpace(r[|r| - 1])
  {
    if s != [] && IsSpace(s[|s| - 1]) then TrimRight(s[..|s| - 1]) else s
  }

  function DropTrailing(s: string, c: char): (r: string)
    ensures r <= s && (r != "" ==> r[|r| - 1] != c)
  {
    if s != "" && s[|s| - 1] == c then DropTrailing(s[..|s| - 1], c) else s
  }

  /** Removes the spaces at both ends. */
  function Trim(s: string): (r: string)
    ensures r != [] ==> !IsSpace(r[0]) && !IsSpace(r[|r| - 1])
  {
    TrimRight(TrimLeft(s))
  }

  predicate IsBlank(s: string) { Trim(s) == "" }

  lemma TrimIdempotent(s: string)
    ensures Trim(Trim(s)) == Trim(s)
  {
  }

  lemma TrimUnchanged(s: string)
    requires s != "" ==> !IsSpace(s[0]) && !IsSpace(s[|s| - 1])
    ensures Trim(s) == s
  {
  }

  /** The white space characters one by one. */
  lemma SpacesExactly(c: char)
    ensures IsSpace(c) <==>
              c as int in {0x09, 0x0A, 0x0B, 0x0C, 0x0D, 0x20, 0x85, 0xA0, 0x1680, 0x2000, 0x2001, 0x2002, 0x2003,
                  0x2004,
                           0x2005, 0x2006, 0x2007, 0x2008, 0x2009, 0x200A, 0x2028, 0x2029, 0x202F, 0x205F, 0x3000}
  {
  }

  lemma {:induction false} TrimLeftDrops(s: string) returns (front: string)
    ensures s == front + TrimLeft(s) && forall c | c in front :: IsSpace(c)
  {
    if s != [] && IsSpace(s[0]) {
      front := TrimLeftDrops(s[1..]);
      front := [s[0]] + front;
    } else {
      front := "";
    }
  }

  lemma {:induction false} TrimRightDrops(s: string) returns (back: string)
    ensures s == TrimRight(s) + back && forall c | c in back :: IsSpace(c)
  {
    if s != [] && IsSpace(s[|s| - 1]) {
      back := TrimRightDrops(s[..|s| - 1]);
      back := back + [s[|s| - 1]];
    } else {
      back := "";
    }
  }

  /** Trimming drops white space at both ends and nothing else. */
  lemma TrimDropsSpaces(s: string) returns (front: string, back: string)
    ensures s == front + Trim(s) + back && forall c | c in front + back :: IsSpace(c)
    ensures Trim(s) != "" ==> !IsSpace(Trim(s)[0]) && !IsSpace(Trim(s)[|Trim(s)| - 1])
  {
    hide TrimLeft, TrimRight, IsSpace;
    front := TrimLeftDrops(s);
    back := TrimRightDrops(TrimLeft(s));
  }

  lemma LaterValue(values: seq<string>, r: string)
    requires values != [] && IsBlank(values[0])
    requires exists i | 0 <= i < |values[1..]| ::
               r == Trim(values[1..][i]) && forall j | 0 <= j < i :: IsBlank(values[1..][j])
    ensures exists i | 0 <= i < |values| :: r == Trim(values[i]) && forall j | 0 <= j < i :: IsBlank(values[j])
  {
    hide Trim, IsBlank;
    var i :| 0 <= i < |values[1..]| && r == Trim(values[1..][i]) && forall j | 0 <= j < i :: IsBlank(values[1..][j]);
    assert r == Trim(values[i + 1]);
    forall j | 0 <= j < i + 1 ensures IsBlank(values[j]) {
      if j > 0 { assert values[j] == values[1..][j - 1]; }
    }
  }

  /** The first value that is not blank, trimmed; "" when there is none. */
  function FirstNonEmpty(values: seq<string>): (r: string)
    ensures Trim(r) == r
    ensures r == "" <==> forall v | v in values :: IsBlank(v)
    ensures r != "" ==> exists i | 0 <= i < |values| ::
              r == Trim(values[i]) && forall j | 0 <= j < i :: IsBlank(values[j])
  {
    if values == [] then ""
    else if !IsBlank(values[0]) then
      TrimIdempotent(values[0]);
      Trim(values[0])
    else
      assert forall v | v in values :: v == values[0] || v in values[1..];
      var r := FirstNonEmpty(values[1..]);
      assert r != "" ==> exists i | 0 <= i < |values| ::
               r == Trim(values[i]) && forall j | 0 <= j < i :: IsBlank(values[j]) by {
        if r != "" { LaterValue(values, r); }
      }
      r
  }

  function LowerChar(c: char): char {
    if 'A' <= c <= 'Z' then ((c as int) + 32) as char else c
  }

  function UpperChar(c: char): char {
    if 'a' <= c <= 'z' then ((c as int) - 32) as char else c
  }

  function ToLower(s: string): (r: string)
    ensures |r| == |s|
  {
    seq(|s|, i requires 0 <= i < |s| => LowerChar(s[i]))
  }

  function ToUpper(s: string): (r: string)
    ensures |r| == |s|
  {
    seq(|s|, i requires 0 <= i < |s| => UpperChar(s[i]))
  }

  const SMALL := "abcdefghijklmnopqrstuvwxyz"
  const LARGE := "ABCDEFGHIJKLMNOPQRSTUVWXYZ"

  lemma LettersExactly(k: nat)
    requires k < 26
    ensures SMALL[k] as int == 97 + k && LARGE[k] as int == 65 + k
  {
  }

  /** Case mapping exchanges the letters of the two alphabets and leaves every other character. */
  lemma CasesExactly(s: string, i: nat, k: nat)
    requires i < |s| && k < 26
    ensures |ToLower(s)| == |ToUpper(s)| == |s|
    ensures s[i] == LARGE[k] ==> ToLower(s)[i] == SMALL[k] && ToUpper(s)[i] == s[i]
    ensures s[i] == SMALL[k] ==> ToUpper(s)[i] == LARGE[k] && ToLower(s)[i] == s[i]
    ensures s[i] !in SMALL && s[i] !in LARGE ==> ToLower(s)[i] == ToUpper(s)[i] == s[i]
  {
    LettersExactly(k);
    var n := s[i] as int;
    if 65 <= n <= 90 { LettersExactly(n - 65); }
    if 97 <= n <= 122 { LettersExactly(n - 97); }
  }

  /** Strings in code point order. */
  predicate Less(a: string, b: string) {
    b != [] && (a == [] || a[0] < b[0] || (a[0] == b[0] && Less(a[1..], b[1..])))
  }

  lemma {:induction false} LessIsTotal(a: string, b: string)
    ensures Less(a, b) || Less(b, a) || a == b
    ensures !(Less(a, b) && Less(b, a)) && !Less(a, a)
  {
    if a == [] {
    } else {
      LessIsTotal(a[1..], a[1..]);
      if b != [] {
        LessIsTotal(a[1..], b[1..]);
        assert a == [a[0]] + a[1..] && b == [b[0]] + b[1..];
      }
    }
  }

  lemma {:induction false} LessTransitive(a: string, b: string, c: string)
    requires Less(a, b) && Less(b, c)
    ensures Less(a, c)
  {
    if a != [] && a[0] == b[0] == c[0] {
      LessTransitive(a[1..], b[1..], c[1..]);
    }
  }
}
