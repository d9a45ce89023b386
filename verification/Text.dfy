/** String helpers the manifest package builds on: trimming, lower-casing, integer parsing
    and splitting.  Strings are sequences of runes; lower-casing folds ASCII letters only. */
module Text {
  import opened Wrappers

  /** unicode.IsSpace, the set strings.TrimSpace strips. */
  predicate IsSpace(c: char) {
    || '\t' <= c <= '\r' || c == ' ' || c == '\U{85}' || c == '\U{A0}' || c == '\U{1680}'
    || '\U{2000}' <= c <= '\U{200A}' || c == '\U{2028}' || c == '\U{2029}'
    || c == '\U{202F}' || c == '\U{205F}' || c == '\U{3000}'
  }

  function TrimLeft(s: string): (r: string)
    ensures |r| <= |s| && r == s[|s| - |r|..]
    ensures r != [] ==> !IsSpace(r[0])
  {
    if s != [] && IsSpace(s[0]) then TrimLeft(s[1..]) else s
  }

  function TrimRight(s: string): (r: string)
    ensures |r| <= |s| && r == s[..|r|]
    ensures r != [] ==> !IsSpace(r[|r| - 1])
  {
    if s != [] && IsSpace(s[|s| - 1]) then TrimRight(s[..|s| - 1]) else s
  }

  /** strings.TrimSpace. */
  function Trim(s: string): (r: string)
    ensures |r| <= |s|
    ensures Trimmed(r)
    ensures Trimmed(s) ==> r == s
    ensures forall c :: c in r ==> c in s
  {
    TrimRight(TrimLeft(s))
  }

  /** Neither end is white space. */
  predicate Trimmed(s: string) {
    s == [] || (!IsSpace(s[0]) && !IsSpace(s[|s| - 1]))
  }

  predicate AllSpace(s: string) {
    forall i :: 0 <= i < |s| ==> IsSpace(s[i])
  }

  /** Nothing is left of white space. */
  lemma {:induction false} TrimBlank(s: string)
    requires AllSpace(s)
    ensures TrimLeft(s) == "" && Trim(s) == ""
  {
    hide IsSpace;
    if s != "" {
      TrimBlank(s[1..]);
    }
  }

  lemma {:induction false} LeftIsSpace(s: string)
    ensures AllSpace(s[..|s| - |TrimLeft(s)|])
  {
    hide IsSpace;
    if s != "" && IsSpace(s[0]) {
      LeftIsSpace(s[1..]);
      assert s[..|s| - |TrimLeft(s)|] == [s[0]] + s[1..][..|s| - 1 - |TrimLeft(s[1..])|];
    }
  }

  lemma {:induction false} RightIsSpace(s: string)
    ensures AllSpace(s[|TrimRight(s)|..])
  {
    hide IsSpace;
    if s != "" && IsSpace(s[|s| - 1]) {
      RightIsSpace(s[..|s| - 1]);
      assert s[|TrimRight(s)|..] == s[..|s| - 1][|TrimRight(s[..|s| - 1])|..] + [s[|s| - 1]];
    }
  }

  /** What trimming takes off are white space at both ends and nothing else. */
  lemma TrimmedOff(s: string) returns (left: string, right: string)
    ensures s == left + Trim(s) + right && AllSpace(left) && AllSpace(right)
  {
    var t := TrimLeft(s);
    LeftIsSpace(s);
    RightIsSpace(t);
    hide IsSpace, AllSpace, TrimLeft, TrimRight;
    left, right := s[..|s| - |t|], t[|TrimRight(t)|..];
  }

  /** One blank on each side of a trimmed text is all that trimming takes off again. */
  lemma TrimPadded(t: string)
    requires Trimmed(t)
    ensures Trim(" " + t + " ") == t
  {
    hide TrimLeft, TrimRight, IsSpace;
    LeftBlank(t + " ");
    assert " " + t + " " == " " + (t + " ");
    if t == "" {
      LeftBlank("");
      assert " " + "" == t + " ";
      Untouched("");
    } else {
      Untouched(t + " ");
      RightBlank(t);
      Untouched(t);
    }
  }

  lemma Untouched(s: string)
    ensures s == "" || !IsSpace(s[0]) ==> TrimLeft(s) == s
    ensures s == "" || !IsSpace(s[|s| - 1]) ==> TrimRight(s) == s
  {
  }

  lemma LeftBlank(s: string)
    ensures TrimLeft(" " + s) == TrimLeft(s)
  {
    assert (" " + s)[1..] == s;
  }

  lemma RightBlank(s: string)
    ensures TrimRight(s + " ") == TrimRight(s)
  {
    assert (s + " ")[..|s|] == s;
  }

  function LowerChar(c: char): char {
    if 'A' <= c <= 'Z' then c - 'A' + 'a' else c
  }

  /** strings.ToLower. */
  function Lower(s: string): (r: string) {
    seq(|s|, i requires 0 <= i < |s| => LowerChar(s[i]))
  }

  /** normalizeIntegrationName: the key under which names are compared. */
  function Normalize(s: string): string {
    Lower(Trim(s))
  }

  predicate IsDigit(c: char) {
    '0' <= c <= '9'
  }

  function Digits(s: string): int {
    if s == [] then 0 else Digits(s[..|s| - 1]) * 10 + (s[|s| - 1] as int - '0' as int)
  }

  predicate Decimal(s: string) {
    s != [] && forall i :: 0 <= i < |s| ==> IsDigit(s[i])
  }

  const MAX_INT := 0x7FFF_FFFF_FFFF_FFFF
  const MIN_INT := -0x8000_0000_0000_0000

  /** strconv.Atoi: an optional sign and decimal digits within 64 bits. */
  function Atoi(s: string): (r: Option<int>)
    ensures r.Some? ==> MIN_INT <= r.value <= MAX_INT
  {
    var signed := s != [] && (s[0] == '+' || s[0] == '-');
    var digits := if signed then s[1..] else s;
    if !Decimal(digits) then None
    else
      var n := if signed && s[0] == '-' then -Digits(digits) else Digits(digits);
      if MIN_INT <= n <= MAX_INT then Some(n) else None
  }

  /** The decimal text of a number. */
  function Show(n: int): string {
    if n < 0 then "-" + ShowNat(-n) else ShowNat(n)
  }

  function ShowNat(n: nat): string {
    if n < 10 then [(n + '0' as int) as char] else ShowNat(n / 10) + [(n % 10 + '0' as int) as char]
  }

  lemma {:induction false} DigitsOfShow(n: nat)
    ensures Decimal(ShowNat(n)) && Digits(ShowNat(n)) == n
  {
    var c := (n % 10 + '0' as int) as char;
    if n < 10 {
      assert ShowNat(n) == [c] && [c][..0] == [];
    } else {
      DigitsOfShow(n / 10);
      var front := ShowNat(n / 10);
      assert ShowNat(n) == front + [c];
      assert (front + [c])[..|front|] == front;
    }
  }

  /** Reading a number's decimal text gives the number back. */
  lemma AtoiShow(n: int)
    requires MIN_INT <= n <= MAX_INT
    ensures Atoi(Show(n)) == Some(n)
  {
    var digits := ShowNat(if n < 0 then -n else n);
    DigitsOfShow(if n < 0 then -n else n);
    assert IsDigit(digits[0]);
    hide Digits, ShowNat;
    if n < 0 {
      assert ("-" + digits)[1..] == digits;
    }
  }

  /** strings.Split on a single rune: the pieces between its occurrences, at least one. */
  function SplitOn(s: string, c: char): (parts: seq<string>)
    ensures |parts| >= 1
    ensures forall i :: 0 <= i < |parts| ==> c !in parts[i]
  {
    if s == [] then [[]]
    else
      var rest := SplitOn(s[1..], c);
      if s[0] == c then [[]] + rest else [[s[0]] + rest[0]] + rest[1..]
  }

  /** Pieces joined by a rune between them. */
  function Joined(parts: seq<string>, c: char): string {
    if parts == [] then "" else if |parts| == 1 then parts[0] else parts[0] + [c] + Joined(parts[1..], c)
  }

  lemma {:induction false} SplitFirst(piece: string, rest: string, c: char)
    requires c !in piece
    ensures SplitOn(piece + [c] + rest, c) == [piece] + SplitOn(rest, c)
    ensures SplitOn(piece, c) == [piece]
  {
    if piece == "" {
      assert ("" + [c] + rest)[1..] == rest;
    } else {
      var tail := piece[1..];
      SplitFirst(tail, rest, c);
      assert piece == [piece[0]] + tail;
      assert (piece + [c] + rest)[1..] == tail + [c] + rest && (piece + [c] + rest)[0] == piece[0];
      assert ([tail] + SplitOn(rest, c))[1..] == SplitOn(rest, c);
    }
  }

  /** Splitting undoes joining. */
  lemma {:induction false} SplitJoined(parts: seq<string>, c: char)
    requires parts != [] && forall i :: 0 <= i < |parts| ==> c !in parts[i]
    ensures SplitOn(Joined(parts, c), c) == parts
  {
    hide SplitOn;
    if |parts| == 1 {
      SplitFirst(parts[0], "", c);
      assert parts == [parts[0]];
    } else {
      SplitFirst(parts[0], Joined(parts[1..], c), c);
      SplitJoined(parts[1..], c);
      assert parts == [parts[0]] + parts[1..];
    }
  }

  /** Joining undoes splitting. */
  lemma {:induction false} JoinedSplit(s: string, c: char)
    ensures Joined(SplitOn(s, c), c) == s
  {
    if s != "" {
      JoinedSplit(s[1..], c);
      var rest := SplitOn(s[1..], c);
      if s[0] == c {
        assert ([""] + rest)[1..] == rest;
        assert Joined([""] + rest, c) == "" + [c] + Joined(rest, c);
      } else {
        var all := [[s[0]] + rest[0]] + rest[1..];
        assert all[1..] == rest[1..];
        if |rest| > 1 {
          assert Joined(all, c) == [s[0]] + rest[0] + [c] + Joined(rest[1..], c);
        }
      }
      assert s == [s[0]] + s[1..];
    }
  }

  /** len() of the UTF-8 encoding. */
  function ByteLength(s: string): nat {
    if s == [] then 0
    else
      var c := s[0] as int;
      (if c < 0x80 then 1 else if c < 0x800 then 2 else if c < 0x10000 then 3 else 4) + ByteLength(s[1..])
  }
}
