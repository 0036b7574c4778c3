/**
 * The string and number primitives the loaders, savers and the command-line
 * parser are written against, on `seq<char>`: Java's `String.trim`,
 * `String.contains`, `String.split`, `Integer.parseInt` and the decimal
 * rendering of an `int`; C's `isspace`, `isdigit`, `strtol` and `atoi`.
 */
module Text {
  import opened Wrappers

  /** The range of a 32-bit `int`. */
  predicate Int32(x: int)
  {
    -0x8000_0000 <= x <= 0x7fff_ffff
  }

  /** C `isspace` in the "C" locale; the same six characters form `\s` in a Java pattern. */
  predicate IsSpace(c: char)
  {
    c == ' ' || c == '\t' || c == '\n' || c == '\U{0B}' || c == '\U{0C}' || c == '\r'
  }

  predicate IsDigit(c: char)
  {
    '0' <= c <= '9'
  }

  predicate AllDigits(s: string)
  {
    forall i :: 0 <= i < |s| ==> IsDigit(s[i])
  }

  /** The number a run of decimal digits spells, most significant first. */
  function DigitsValue(s: string): nat
    requires AllDigits(s)
  {
    if s == [] then 0 else DigitsValue(s[..|s| - 1]) * 10 + (s[|s| - 1] as int - '0' as int)
  }

  // ---------------------------------------------------------------- Java

  /** The characters `String.trim` strips: every code point up to the space. */
  predicate Blank(c: char)
  {
    c <= ' '
  }

  /** `s` without its leading blanks. */
  function TrimStart(s: string): string
  {
    if s != [] && Blank(s[0]) then TrimStart(s[1..]) else s
  }

  /** `s` without its trailing blanks. */
  function TrimEnd(s: string): string
  {
    if s != [] && Blank(s[|s| - 1]) then TrimEnd(s[..|s| - 1]) else s
  }

  /** `String.trim`: the input without its leading and trailing blanks. */
  function Trim(s: string): string
  {
    TrimEnd(TrimStart(s))
  }

  /** Stripping leading blanks leaves a suffix that is empty or starts with a non-blank. */
  lemma {:induction false} TrimStartSuffix(s: string)
    ensures |TrimStart(s)| <= |s| && TrimStart(s) == s[|s| - |TrimStart(s)|..]
    ensures TrimStart(s) == [] || !Blank(TrimStart(s)[0])
  {
    if s != [] && Blank(s[0]) {
      TrimStartSuffix(s[1..]);
    }
  }

  /** Stripping trailing blanks leaves a prefix that is empty or ends with a non-blank. */
  lemma {:induction false} TrimEndPrefix(s: string)
    ensures |TrimEnd(s)| <= |s| && TrimEnd(s) == s[..|TrimEnd(s)|]
    ensures TrimEnd(s) == [] || !Blank(TrimEnd(s)[|TrimEnd(s)| - 1])
    ensures s != [] && !Blank(s[0]) ==> TrimEnd(s) != []
  {
    if s != [] && Blank(s[|s| - 1]) {
      TrimEndPrefix(s[..|s| - 1]);
      assert s[..|s| - 1][..|TrimEnd(s)|] == s[..|TrimEnd(s)|];
    }
  }

  /** `Trim(s)` is a piece of `s` that neither starts nor ends with a blank. */
  lemma Trimmed(s: string)
    ensures |Trim(s)| <= |s|
    ensures Trim(s) == [] || (!Blank(Trim(s)[0]) && !Blank(Trim(s)[|Trim(s)| - 1]))
  {
    var u := TrimStart(s);
    TrimStartSuffix(s);
    TrimEndPrefix(u);
    if Trim(s) != [] {
      assert Trim(s)[0] == u[0];
    }
  }

  /** A string that already starts and ends with a non-blank is its own trim. */
  lemma TrimFixed(s: string)
    requires s == [] || (!Blank(s[0]) && !Blank(s[|s| - 1]))
    ensures Trim(s) == s
  {
  }

  /** A string made only of blanks trims to the empty string. */
  lemma {:induction false} TrimAllBlank(s: string)
    requires forall i :: 0 <= i < |s| ==> Blank(s[i])
    ensures Trim(s) == []
  {
    if s != [] {
      assert TrimStart(s) == TrimStart(s[1..]);
      TrimAllBlank(s[1..]);
    }
  }

  /** `d` occurs in `s` at position `i`. */
  predicate At(s: string, d: string, i: int)
  {
    0 <= i && i + |d| <= |s| && s[i..i + |d|] == d
  }

  /** The first occurrence of `d` in `s` at or after `from`. */
  function Find(s: string, d: string, from: nat): (r: Option<nat>)
    ensures r.Some? ==> from <= r.value && At(s, d, r.value)
    ensures r.Some? ==> forall i :: from <= i < r.value ==> !At(s, d, i)
    ensures r.None? ==> forall i :: from <= i ==> !At(s, d, i)
    decreases |s| - from
  {
    if from + |d| > |s| then None
    else if At(s, d, from) then Some(from)
    else Find(s, d, from + 1)
  }

  /** `String.contains`. */
  predicate Contains(s: string, d: string)
  {
    Find(s, d, 0).Some?
  }

  /** `String.startsWith`. */
  predicate StartsWith(s: string, d: string)
  {
    |d| <= |s| && s[..|d|] == d
  }

  /** The text between successive occurrences of `d`, left to right, empty pieces included. */
  function Pieces(s: string, d: string): (ps: seq<string>)
    requires |d| > 0
    ensures |ps| >= 1
    decreases |s|
  {
    match Find(s, d, 0)
    case None => [s]
    case Some(i) => [s[..i]] + Pieces(s[i + |d|..], d)
  }

  /** The pieces with `d` between consecutive ones. */
  function Join(ps: seq<string>, d: string): string
  {
    if |ps| == 0 then [] else if |ps| == 1 then ps[0] else ps[0] + d + Join(ps[1..], d)
  }

  function DropTrailingEmpty(ps: seq<string>): (r: seq<string>)
    ensures |r| <= |ps| && r == ps[..|r|]
    ensures r == [] || r[|r| - 1] != []
    ensures forall i :: |r| <= i < |ps| ==> ps[i] == []
  {
    if ps != [] && ps[|ps| - 1] == [] then DropTrailingEmpty(ps[..|ps| - 1]) else ps
  }

  /**
   * `String.split(d)` for a delimiter without pattern metacharacters: the
   * input itself when `d` does not occur, otherwise the pieces with the
   * trailing empty ones removed.
   */
  function Split(s: string, d: string): (ps: seq<string>)
    requires |d| > 0
  {
    if !Contains(s, d) then [s] else DropTrailingEmpty(Pieces(s, d))
  }

  /** Joining the pieces back with the delimiter gives the original text. */
  lemma {:induction false} JoinPieces(s: string, d: string)
    requires |d| > 0
    ensures Join(Pieces(s, d), d) == s
    decreases |s|
  {
    match Find(s, d, 0)
    case None =>
    case Some(i) =>
      var rest := s[i + |d|..];
      var ps := Pieces(rest, d);
      JoinPieces(rest, d);
      assert Pieces(s, d) == [s[..i]] + ps;
      assert ([s[..i]] + ps)[1..] == ps;
      assert Join([s[..i]] + ps, d) == s[..i] + d + Join(ps, d);
      JoinAround(s, d, i);
  }

  /** An occurrence of `d` at `i` splits `s` into the text before it, `d` and the text after it. */
  lemma JoinAround(s: string, d: string, i: nat)
    requires At(s, d, i)
    ensures s == s[..i] + d + s[i + |d|..]
  {
    assert s[i..i + |d|] == d;
    assert s == s[..i] + s[i..i + |d|] + s[i + |d|..];
  }

  /** Text in which the first delimiter character never appears contains no delimiter. */
  lemma FreeHasNoDelimiter(s: string, d: string)
    requires |d| > 0 && d[0] !in s
    ensures Find(s, d, 0).None?
  {
    forall i | 0 <= i
      ensures !At(s, d, i)
    {
      if i + |d| <= |s| {
        assert s[i..i + |d|][0] == s[i];
      }
    }
  }

  /** Splitting the join of delimiter-free pieces gives the pieces back. */
  lemma {:induction false} PiecesOfJoin(ps: seq<string>, d: string)
    requires |d| > 0 && |ps| >= 1
    requires forall k :: 0 <= k < |ps| ==> d[0] !in ps[k]
    ensures Pieces(Join(ps, d), d) == ps
    ensures |ps| >= 2 ==> Contains(Join(ps, d), d)
    decreases |ps|
  {
    if |ps| == 1 {
      FreeHasNoDelimiter(ps[0], d);
    } else {
      var s := Join(ps, d);
      var m := |ps[0]|;
      assert s == ps[0] + d + Join(ps[1..], d);
      assert At(s, d, m);
      forall i | 0 <= i < m
        ensures !At(s, d, i)
      {
        assert s[i] == ps[0][i];
        if i + |d| <= |s| {
          assert s[i..i + |d|][0] == s[i];
        }
      }
      assert Find(s, d, 0) == Some(m);
      assert s[m + |d|..] == Join(ps[1..], d);
      assert s[..m] == ps[0];
      PiecesOfJoin(ps[1..], d);
    }
  }

  /** `split` undoes a join of delimiter-free pieces whose last piece is not empty. */
  lemma SplitJoin(ps: seq<string>, d: string)
    requires |d| > 0 && |ps| >= 1 && ps[|ps| - 1] != []
    requires forall k :: 0 <= k < |ps| ==> d[0] !in ps[k]
    ensures Split(Join(ps, d), d) == ps
  {
    PiecesOfJoin(ps, d);
    if |ps| == 1 {
      FreeHasNoDelimiter(ps[0], d);
    }
  }

  /** The separator class `[\s.]` of the pattern that splits a matrix row into cells. */
  predicate CellSeparator(c: char)
  {
    IsSpace(c) || c == '.'
  }

  /** The first separator at or after `i`, or the end of `s`. */
  function FieldEnd(s: string, i: nat): (e: nat)
    requires i <= |s|
    ensures i <= e <= |s| && (e < |s| ==> CellSeparator(s[e]))
    ensures forall k :: i <= k < e ==> !CellSeparator(s[k])
    decreases |s| - i
  {
    if i == |s| || CellSeparator(s[i]) then i else FieldEnd(s, i + 1)
  }

  /** The first non-separator at or after `i`, or the end of `s`. */
  function RunEnd(s: string, i: nat): (e: nat)
    requires i <= |s|
    ensures i <= e <= |s| && (e < |s| ==> !CellSeparator(s[e]))
    ensures forall k :: i <= k < e ==> CellSeparator(s[k])
    decreases |s| - i
  {
    if i == |s| || !CellSeparator(s[i]) then i else RunEnd(s, i + 1)
  }

  /** The text between maximal runs of separators, a leading and a trailing empty field included. */
  function RunFields(s: string): (fs: seq<string>)
    ensures |fs| >= 1
    decreases |s|
  {
    var e := FieldEnd(s, 0);
    if e == |s| then [s] else [s[..e]] + RunFields(s[RunEnd(s, e + 1)..])
  }

  /** `String.split("[\\s.]+")`: the input when it has no separator, otherwise the fields without trailing empty ones. */
  function SplitCells(s: string): seq<string>
  {
    if FieldEnd(s, 0) == |s| then [s] else DropTrailingEmpty(RunFields(s))
  }

  /** The digits of `n`, most significant first. */
  function Digits(n: nat): (s: string)
    ensures |s| >= 1 && AllDigits(s)
    ensures DigitsValue(s) == n
  {
    var last := ('0' as int + n % 10) as char;
    if n < 10 then [last]
    else
      var s := Digits(n / 10) + [last];
      assert s[..|s| - 1] == Digits(n / 10);
      s
  }

  /** The decimal rendering of an `int`, as `Integer.toString` and string concatenation write it. */
  function Show(n: int): (s: string)
    ensures |s| >= 1 && IsDigit(s[|s| - 1])
    ensures forall i :: 0 <= i < |s| ==> IsDigit(s[i]) || (i == 0 && s[i] == '-')
  {
    if n < 0 then "-" + Digits(-n) else Digits(n)
  }

  /**
   * `Integer.parseInt` on ASCII text: one optional sign, then at least one
   * ASCII digit, within 32 bits; None where Java throws on such input.
   * Other Unicode decimal digits are not recognised.
   */
  function ParseInt(s: string): (r: Option<int>)
    ensures r.Some? ==> Int32(r.value)
    ensures r.Some? ==> |s| >= 1 && IsDigit(s[|s| - 1])
  {
    var signed := |s| > 0 && (s[0] == '-' || s[0] == '+');
    var body := if signed then s[1..] else s;
    if body == [] || !AllDigits(body) then None
    else
      var magnitude: int := DigitsValue(body);
      var v := if signed && s[0] == '-' then -magnitude else magnitude;
      if Int32(v) then Some(v) else None
  }

  /** Reading back a rendered 32-bit value gives the value. */
  lemma ParseShow(n: int)
    requires Int32(n)
    ensures ParseInt(Show(n)) == Some(n)
  {
    if n < 0 {
      assert Show(n)[1..] == Digits(-n);
    }
  }

  // ---------------------------------------------------------------- C

  /** The first index at or after `i` that is not a space. */
  function SkipSpaces(s: string, i: nat): (e: nat)
    requires i <= |s|
    ensures i <= e <= |s| && (e < |s| ==> !IsSpace(s[e]))
    ensures forall k :: i <= k < e ==> IsSpace(s[k])
    decreases |s| - i
  {
    if i == |s| || !IsSpace(s[i]) then i else SkipSpaces(s, i + 1)
  }

  /** The first index at or after `i` that is not a digit. */
  function SkipDigits(s: string, i: nat): (e: nat)
    requires i <= |s|
    ensures i <= e <= |s| && (e < |s| ==> !IsDigit(s[e]))
    ensures forall k :: i <= k < e ==> IsDigit(s[k])
    decreases |s| - i
  {
    if i == |s| || !IsDigit(s[i]) then i else SkipDigits(s, i + 1)
  }

  /**
   * `strtol(s + i, &end, 10)`: leading spaces, one optional sign and at
   * least one digit. The value and the end position, or None when nothing
   * converts (`end` is left at `s + i`).
   */
  function Strtol(s: string, i: nat): (r: Option<(int, nat)>)
    requires i <= |s|
    ensures r.Some? ==> i < r.value.1 <= |s| && IsDigit(s[r.value.1 - 1])
    ensures r.Some? ==> r.value.1 == |s| || !IsDigit(s[r.value.1])
  {
    var k := SkipSpaces(s, i);
    var j := if k < |s| && (s[k] == '+' || s[k] == '-') then k + 1 else k;
    var e := SkipDigits(s, j);
    if e == j then None
    else
      assert forall t :: 0 <= t < e - j ==> s[j..e][t] == s[j + t];
      var v: int := DigitsValue(s[j..e]);
      Some((if j > k && s[k] == '-' then -v else v, e))
  }

  /** `atoi`: the value `strtol` converts, or 0 when it converts nothing. */
  function Atoi(s: string): int
  {
    match Strtol(s, 0)
    case Some((v, _)) => v
    case None => 0
  }

  /** Appending a piece to a non-empty list adds the delimiter and the piece at the end of the join. */
  lemma {:induction false} JoinSnoc(ps: seq<string>, p: string, d: string)
    requires ps != []
    ensures Join(ps + [p], d) == Join(ps, d) + d + p
  {
    if |ps| > 1 {
      assert (ps + [p])[1..] == ps[1..] + [p];
      JoinSnoc(ps[1..], p, d);
    }
  }

  /** A property of every character of the pieces and of the delimiter holds of every character of the join. */
  lemma {:induction false} JoinAll(ps: seq<string>, d: string, P: char -> bool)
    requires forall i :: 0 <= i < |d| ==> P(d[i])
    requires forall k, i :: 0 <= k < |ps| && 0 <= i < |ps[k]| ==> P(ps[k][i])
    ensures forall i :: 0 <= i < |Join(ps, d)| ==> P(Join(ps, d)[i])
  {
    if |ps| > 1 {
      JoinAll(ps[1..], d, P);
      var rest := Join(ps[1..], d);
      assert Join(ps, d) == ps[0] + d + rest;
      forall i | 0 <= i < |Join(ps, d)|
        ensures P(Join(ps, d)[i])
      {
        if i < |ps[0]| {
        } else if i < |ps[0]| + |d| {
          assert Join(ps, d)[i] == d[i - |ps[0]|];
        } else {
          assert Join(ps, d)[i] == rest[i - |ps[0]| - |d|];
        }
      }
    }
  }

  /** Text that lacks one character of `d` does not contain `d`. */
  lemma MissingCharNoMatch(s: string, d: string, k: int)
    requires 0 <= k < |d| && d[k] !in s
    ensures !Contains(s, d)
  {
    forall i | 0 <= i
      ensures !At(s, d, i)
    {
      if i + |d| <= |s| {
        assert s[i..i + |d|][k] == s[i + k];
      }
    }
  }
}
