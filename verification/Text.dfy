/** Splitting, trimming and decimal numerals, as the printers and their readers use them. */
module Text {
  import opened Wrappers

  // ---------------------------------------------------------------- splitting

  /** The index of the first c, or the length if there is none. */
  function IndexOf(s: string, c: char): (i: nat)
    ensures i <= |s| && c !in s[..i] && (i < |s| ==> s[i] == c)
  {
    if s == "" || s[0] == c then 0
    else
      var i := 1 + IndexOf(s[1..], c);
      assert s[..i] == [s[0]] + s[1..][..i - 1];
      i
  }

  function Split(s: string, c: char): (parts: seq<string>)
    ensures |parts| > 0 && forall p | p in parts :: c !in p
    decreases |s|
  {
    var i := IndexOf(s, c);
    if i == |s| then [s]
    else [s[..i]] + Split(s[i + 1..], c)
  }

  function Join(parts: seq<string>, c: char): string {
    if parts == [] then ""
    else if |parts| == 1 then parts[0]
    else parts[0] + [c] + Join(parts[1..], c)
  }

  lemma {:induction false} IndexAfter(p: string, c: char, rest: string)
    requires c !in p
    ensures IndexOf(p + [c] + rest, c) == |p|
  {
    if p != "" {
      assert (p + [c] + rest)[1..] == p[1..] + [c] + rest;
      IndexAfter(p[1..], c, rest);
    }
  }

  lemma {:induction false} IndexOfMissing(p: string, c: char)
    requires c !in p
    ensures IndexOf(p, c) == |p|
  {
    if p != "" {
      IndexOfMissing(p[1..], c);
    }
  }

  lemma SplitFirst(p: string, c: char, rest: string)
    requires c !in p
    ensures Split(p + [c] + rest, c) == [p] + Split(rest, c)
  {
    var s := p + [c] + rest;
    IndexAfter(p, c, rest);
    assert s[..|p|] == p && s[|p| + 1..] == rest;
  }

  lemma {:induction false} SplitJoin(parts: seq<string>, c: char)
    requires parts != [] && forall p | p in parts :: c !in p
    ensures Split(Join(parts, c), c) == parts
  {
    if |parts| == 1 {
      IndexOfMissing(parts[0], c);
    } else {
      SplitJoin(parts[1..], c);
      SplitFirst(parts[0], c, Join(parts[1..], c));
    }
  }

  // ---------------------------------------------------------------- trimming

  /** The whitespace characters that strip() removes. */
  predicate IsSpace(c: char) {
    var n := c as int;
    || 0x09 <= n <= 0x0d || 0x1c <= n <= 0x20 || n == 0x85 || n == 0xa0 || n == 0x1680
    || 0x2000 <= n <= 0x200a || n == 0x2028 || n == 0x2029 || n == 0x202f || n == 0x205f || n == 0x3000
  }

  function TrimLeft(s: string): string {
    if s != "" && IsSpace(s[0]) then TrimLeft(s[1..]) else s
  }

  function TrimRight(s: string): string {
    if s != "" && IsSpace(s[|s| - 1]) then TrimRight(s[..|s| - 1]) else s
  }

  function Strip(s: string): string {
    TrimRight(TrimLeft(s))
  }

  /** Neither end is a space. */
  predicate Trimmed(s: string) {
    s != "" ==> !IsSpace(s[0]) && !IsSpace(s[|s| - 1])
  }

  lemma TrimLeftFacts(s: string)
    ensures TrimLeft(s) != "" ==> !IsSpace(TrimLeft(s)[0])
    ensures forall c | c in TrimLeft(s) :: c in s
  {
  }

  lemma TrimRightFacts(s: string)
    ensures TrimRight(s) <= s
    ensures TrimRight(s) != "" ==> !IsSpace(TrimRight(s)[|TrimRight(s)| - 1])
  {
  }

  /** Stripping leaves a trimmed string of the same characters, and leaves a trimmed string alone. */
  lemma StripFacts(s: string)
    ensures Trimmed(Strip(s))
    ensures forall c | c in Strip(s) :: c in s
    ensures Strip(s) == s <==> Trimmed(s)
  {
    TrimLeftFacts(s);
    TrimRightFacts(TrimLeft(s));
    if Trimmed(s) {
      assert TrimLeft(s) == s;
    }
  }

  predicate Blank(s: string) {
    forall c | c in s :: IsSpace(c)
  }

  /** Stripping takes blanks off the ends, and nothing else. */
  lemma StripSplits(s: string) returns (left: string, right: string)
    ensures s == left + Strip(s) + right && Blank(left) && Blank(right)
  {
    left := LeftOf(s);
    right := RightOf(TrimLeft(s));
  }

  lemma {:induction false} LeftOf(s: string) returns (left: string)
    ensures s == left + TrimLeft(s) && Blank(left)
  {
    left := "";
    if s != "" && IsSpace(s[0]) {
      var rest := LeftOf(s[1..]);
      left := [s[0]] + rest;
    }
  }

  lemma {:induction false} RightOf(s: string) returns (right: string)
    ensures s == TrimRight(s) + right && Blank(right)
  {
    right := "";
    if s != "" && IsSpace(s[|s| - 1]) {
      var rest := RightOf(s[..|s| - 1]);
      right := rest + [s[|s| - 1]];
    }
  }

  /** The 29 code points that count as space; blanks, tabs and line ends are among them, visible ASCII is not. */
  lemma SpacesAreInvisible(c: char)
    ensures IsSpace(c) <==>
            c as int in {9, 10, 11, 12, 13, 28, 29, 30, 31, 32, 133, 160, 5760, 8192, 8193, 8194, 8195, 8196, 8197, 8198,
                         8199, 8200, 8201, 8202, 8232, 8233, 8239, 8287, 12288}
    ensures c == ' ' || c == '\t' || c == '\n' || c == '\r' ==> IsSpace(c)
    ensures '!' <= c <= '~' ==> !IsSpace(c)
  {
  }

  lemma {:induction false} TrimLeftBlank(left: string, s: string)
    requires Blank(left) && (s != "" ==> !IsSpace(s[0]))
    ensures TrimLeft(left + s) == s
  {
    if left == "" {
      assert left + s == s;
    } else {
      assert left[0] in left && (left + s)[1..] == left[1..] + s;
      TrimLeftBlank(left[1..], s);
    }
  }

  lemma {:induction false} TrimRightBlank(s: string, right: string)
    requires Blank(right) && (s != "" ==> !IsSpace(s[|s| - 1]))
    ensures TrimRight(s + right) == s
  {
    if right == "" {
      assert s + right == s;
    } else {
      assert right[|right| - 1] in right && (s + right)[..|s + right| - 1] == s + right[..|right| - 1];
      TrimRightBlank(s, right[..|right| - 1]);
    }
  }

  /** Stripping undoes padding with blanks. */
  lemma StripPadded(left: string, s: string, right: string)
    requires Blank(left) && Blank(right) && Trimmed(s) && s != ""
    ensures Strip(left + s + right) == s
  {
    assert left + s + right == left + (s + right);
    TrimLeftBlank(left, s + right);
    TrimRightBlank(s, right);
  }

  // ---------------------------------------------------------------- numerals

  function DigitChar(d: nat): char
    requires d < 10
  {
    ('0' as int + d) as char
  }

  predicate IsDigit(c: char) {
    '0' <= c <= '9'
  }

  function DigitValue(c: char): nat
    requires IsDigit(c)
  {
    c as int - '0' as int
  }

  function Numeral(n: nat): (s: string)
    ensures s != "" && forall c | c in s :: IsDigit(c)
  {
    if n < 10 then [DigitChar(n)] else Numeral(n / 10) + [DigitChar(n % 10)]
  }

  predicate AllDigits(s: string) {
    s != "" && forall c | c in s :: IsDigit(c)
  }

  function NumeralValue(s: string): nat
    requires forall c | c in s :: IsDigit(c)
  {
    if s == "" then 0 else NumeralValue(s[..|s| - 1]) * 10 + DigitValue(s[|s| - 1])
  }

  lemma {:induction false} NumeralRoundTrip(n: nat)
    ensures NumeralValue(Numeral(n)) == n
  {
    if n >= 10 {
      NumeralRoundTrip(n / 10);
      assert Numeral(n)[..|Numeral(n)| - 1] == Numeral(n / 10);
    }
  }

  function Concat(parts: seq<string>): (s: string)
    ensures (forall p, c | p in parts && c in p :: IsDigit(c)) ==> forall c | c in s :: IsDigit(c)
  {
    if parts == [] then "" else parts[0] + Concat(parts[1..])
  }

  /** Decimal digits, with single underscores allowed between them. */
  function ParseMagnitude(s: string): Option<nat> {
    var groups := Split(s, '_');
    if forall g | g in groups :: AllDigits(g) then Some(NumeralValue(Concat(groups))) else None
  }

  /** int(): surrounding space and one sign are allowed around the digits. */
  function ParseInt(raw: string): Option<int> {
    var s := Strip(raw);
    if s == "" then None
    else if s[0] == '-' || s[0] == '+' then
      match ParseMagnitude(s[1..])
      case None => None
      case Some(n) =>
        var magnitude: int := n;
        Some(if s[0] == '-' then -magnitude else magnitude)
    else ParseMagnitude(s)
  }

  lemma ParseNumeral(n: nat)
    ensures ParseInt(Numeral(n)) == Some(n)
  {
    ParseIntReads("", n, "");
    assert "" + Numeral(n) + "" == Numeral(n);
  }

  predicate NumeralChar(c: char) {
    IsDigit(c) || c == '_'
  }

  lemma MagnitudeReads(n: nat)
    ensures ParseMagnitude(Numeral(n)) == Some(n)
  {
    hide Numeral;
    var s := Numeral(n);
    NumeralRoundTrip(n);
    IndexOfMissing(s, '_');
    assert Split(s, '_') == [s] && Concat([s]) == s + Concat([]) == s;
  }

  lemma NumeralEnds(n: nat)
    ensures Numeral(n) != "" && IsDigit(Numeral(n)[0]) && IsDigit(Numeral(n)[|Numeral(n)| - 1])
  {
    var s := Numeral(n);
    assert s[0] in s && s[|s| - 1] in s;
  }

  lemma SignedReads(left: string, sign: string, n: nat, right: string)
    requires Blank(left) && Blank(right) && (sign == "" || sign == "+" || sign == "-")
    ensures ParseInt(left + (sign + Numeral(n)) + right) == Some(if sign == "-" then 0 - n else n)
  {
    hide Strip, Numeral, ParseMagnitude, NumeralValue, Blank;
    NumeralEnds(n);
    MagnitudeReads(n);
    var text := sign + Numeral(n);
    assert text[|text| - 1] == Numeral(n)[|Numeral(n)| - 1];
    StripPadded(left, text, right);
    if sign == "" {
      assert text == Numeral(n);
    } else {
      assert text[0] == sign[0] && text[1..] == Numeral(n);
    }
  }

  /** What int() reads: any blanks, one sign or none, and the number in decimal. */
  lemma ParseIntReads(left: string, n: nat, right: string)
    requires Blank(left) && Blank(right)
    ensures ParseInt(left + Numeral(n) + right) == Some(n)
    ensures ParseInt(left + ("+" + Numeral(n)) + right) == Some(n)
    ensures ParseInt(left + ("-" + Numeral(n)) + right) == Some(0 - n)
  {
    hide ParseInt;
    SignedReads(left, "", n, right);
    SignedReads(left, "+", n, right);
    SignedReads(left, "-", n, right);
    assert "" + Numeral(n) == Numeral(n);
  }

  /** And what it refuses: anything with another character in it, or with no digit. */
  lemma ParseIntRefuses(s: string)
    ensures ParseInt(s).Some? ==> exists c | c in s :: IsDigit(c)
    ensures ParseInt(s).Some? ==> forall c | c in s :: IsDigit(c) || c == '_' || c == '-' || c == '+' || IsSpace(c)
  {
    if ParseInt(s).Some? {
      var t := Strip(s);
      var left, right := StripSplits(s);
      var body := if t[0] == '-' || t[0] == '+' then t[1..] else t;
      MagnitudeChars(body);
      assert t == body || t == [t[0]] + body;
      assert forall c | c in body :: c in t && c in s;
      forall c | c in s ensures IsDigit(c) || c == '_' || c == '-' || c == '+' || IsSpace(c) {
        assert c in left || c in t || c in right;
        assert c in t ==> c in body || c == t[0];
      }
    }
  }

  lemma MagnitudeChars(s: string)
    requires ParseMagnitude(s).Some?
    ensures (exists c | c in s :: IsDigit(c)) && forall c | c in s :: NumeralChar(c)
  {
    SplitKeepsChars(s, '_');
    var groups := Split(s, '_');
    var first := groups[0];
    assert first in groups && first[0] in first;
  }

  lemma {:induction false} SplitKeepsChars(s: string, c: char)
    ensures forall p, x | p in Split(s, c) && x in p :: x in s
    ensures forall x | x in s && x != c :: exists p | p in Split(s, c) :: x in p
    decreases |s|
  {
    var i := IndexOf(s, c);
    if i < |s| {
      var rest := s[i + 1..];
      SplitKeepsChars(rest, c);
      assert s == s[..i] + [c] + rest;
      assert Split(s, c) == [s[..i]] + Split(rest, c);
      forall x | x in s && x != c ensures exists p | p in Split(s, c) :: x in p {
        if x in s[..i] {
          assert s[..i] in Split(s, c);
        } else {
          assert x in rest;
          var p :| p in Split(rest, c) && x in p;
          assert p in Split(s, c);
        }
      }
    } else {
      assert Split(s, c) == [s];
    }
  }

  /** Single underscores between groups of digits do not count; an empty group is an error. */
  lemma GroupsRead(groups: seq<string>)
    requires groups != [] && forall g | g in groups :: '_' !in g && forall c | c in g :: IsDigit(c)
    ensures ParseMagnitude(Join(groups, '_')) ==
            if "" in groups then None else Some(NumeralValue(Concat(groups)))
  {
    hide NumeralValue, Concat;
    SplitJoin(groups, '_');
  }

  /** Numerals are decimal. */
  lemma NumeralsAreDecimal(n: nat, d: nat)
    requires d < 10
    ensures Numeral(d) == ["0123456789"[d]]
    ensures n > 0 ==> Numeral(10 * n + d) == Numeral(n) + ["0123456789"[d]]
  {
    assert (10 * n + d) / 10 == n && (10 * n + d) % 10 == d;
  }
}
