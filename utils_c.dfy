/**
 * The command-line helpers of the C program (utils.c): the integer
 * validator `jest_liczba_calkowita` and the option parser
 * `parsuj_argumenty`.
 *
 * A C string is modelled by its characters before the terminating NUL; a
 * read at or past the end gives the terminator, as `*str` does.
 */
module UtilsC {
  import opened Wrappers
  import opened Text

  /** `*str` at offset `p` of a C string: the character there, or the terminator. */
  function CharAt(s: string, p: nat): char
  {
    if p < |s| then s[p] else '\0'
  }

  /** The characters of a C string: no NUL before the terminator. */
  predicate CString(s: string)
  {
    '\0' !in s
  }

  predicate AllSpaces(s: string)
  {
    forall i :: 0 <= i < |s| ==> IsSpace(s[i])
  }

  // ------------------------------------------------------------ jest_liczba_calkowita

  /**
   * The strings `jest_liczba_calkowita` accepts, read the way it reads
   * them: skip spaces, one optional sign, a run of digits that must not be
   * empty, then nothing but spaces up to the end.
   */
  function IntegerText(s: string): bool
  {
    var i := SkipSpaces(s, 0);
    var j := if i < |s| && (s[i] == '+' || s[i] == '-') then i + 1 else i;
    var k := SkipDigits(s, j);
    j < k && SkipSpaces(s, k) == |s|
  }

  /** The shape of an integer: spaces, an optional sign, digits (at least one), spaces. */
  ghost predicate IntegerShaped(s: string)
  {
    exists i, j, k :: 0 <= i <= j < k <= |s| && IntegerSplit(s, i, j, k)
  }

  /** `s` split at `i`, `j`, `k` into leading spaces, a sign or nothing, digits, trailing spaces. */
  predicate IntegerSplit(s: string, i: nat, j: nat, k: nat)
    requires i <= j < k <= |s|
  {
    && AllSpaces(s[..i])
    && (j == i || (j == i + 1 && (s[i] == '+' || s[i] == '-')))
    && AllDigits(s[j..k])
    && AllSpaces(s[k..])
  }

  /** A run of characters with a property ends where the matching skip function stops. */
  lemma SkipSpacesAt(s: string, from: nat, e: nat)
    requires from <= e <= |s|
    requires forall x :: from <= x < e ==> IsSpace(s[x])
    requires e == |s| || !IsSpace(s[e])
    ensures SkipSpaces(s, from) == e
  {
  }

  lemma SkipDigitsAt(s: string, from: nat, e: nat)
    requires from <= e <= |s|
    requires forall x :: from <= x < e ==> IsDigit(s[x])
    requires e == |s| || !IsDigit(s[e])
    ensures SkipDigits(s, from) == e
  {
  }

  /** The validator accepts exactly the integer-shaped strings. */
  lemma IntegerTextShape(s: string)
    ensures IntegerText(s) <==> IntegerShaped(s)
  {
    if IntegerText(s) {
      AcceptedIsShaped(s);
    }
    if IntegerShaped(s) {
      var i, j, k :| 0 <= i <= j < k <= |s| && IntegerSplit(s, i, j, k);
      ShapedIsAccepted(s, i, j, k);
    }
  }

  /** An accepted string splits where the validator's pointer stops. */
  lemma AcceptedIsShaped(s: string)
    requires IntegerText(s)
    ensures IntegerShaped(s)
  {
    var i := SkipSpaces(s, 0);
    var j := if i < |s| && (s[i] == '+' || s[i] == '-') then i + 1 else i;
    var k := SkipDigits(s, j);
    assert forall x :: 0 <= x < i ==> s[..i][x] == s[x];
    assert forall x :: 0 <= x < k - j ==> s[j..k][x] == s[j + x];
    assert forall x :: 0 <= x < |s| - k ==> s[k..][x] == s[k + x];
    assert IntegerSplit(s, i, j, k);
  }

  /** Any split into spaces, sign, digits and spaces is the one the validator finds. */
  lemma ShapedIsAccepted(s: string, i: nat, j: nat, k: nat)
    requires i <= j < k <= |s| && IntegerSplit(s, i, j, k)
    ensures IntegerText(s)
  {
    assert forall x :: 0 <= x < i ==> IsSpace(s[x]) by {
      forall x | 0 <= x < i ensures IsSpace(s[x]) {
        assert s[..i][x] == s[x];
      }
    }
    assert forall x :: j <= x < k ==> IsDigit(s[x]) by {
      forall x | j <= x < k ensures IsDigit(s[x]) {
        assert s[j..k][x - j] == s[x];
      }
    }
    assert forall x :: k <= x < |s| ==> IsSpace(s[x]) by {
      forall x | k <= x < |s| ensures IsSpace(s[x]) {
        assert s[k..][x - k] == s[x];
      }
    }
    SkipSpacesAt(s, 0, i);
    SkipDigitsAt(s, j, k);
    SkipSpacesAt(s, k, |s|);
  }

  /** A string without a digit (only spaces, only a sign, empty) is rejected. */
  lemma NoDigitRejected(s: string)
    requires forall x :: 0 <= x < |s| ==> !IsDigit(s[x])
    ensures !IntegerText(s)
  {
    var i := SkipSpaces(s, 0);
    var j := if i < |s| && (s[i] == '+' || s[i] == '-') then i + 1 else i;
    SkipDigitsAt(s, j, j);
  }

  /** Two runs of digits with spaces between them, such as "12 3", are rejected. */
  lemma SpaceInsideRejected(a: string, b: string, c: string)
    requires a != [] && AllDigits(a) && b != [] && AllSpaces(b) && c != [] && IsDigit(c[0])
    ensures !IntegerText(a + b + c)
  {
    var s := a + b + c;
    assert s[0] == a[0];
    SkipSpacesAt(s, 0, 0);
    assert forall x :: 0 <= x < |a| ==> IsDigit(s[x]);
    assert IsSpace(s[|a|]);
    SkipDigitsAt(s, 0, |a|);
    assert forall x :: |a| <= x < |a| + |b| ==> IsSpace(s[x]);
    assert s[|a| + |b|] == c[0];
    SkipSpacesAt(s, |a|, |a| + |b|);
  }

  /** An accepted string is one `atoi` reads to its end: the number it spells is followed by spaces only. */
  lemma IntegerTextStrtol(s: string)
    requires IntegerText(s)
    ensures Strtol(s, 0).Some? && SkipSpaces(s, Strtol(s, 0).value.1) == |s|
  {
  }

  /**
   * `jest_liczba_calkowita`: walk a pointer over the string. False for NULL
   * or the empty string; otherwise skip spaces and one sign, then read
   * digits; at the first other character skip spaces and accept only at the
   * end, having seen a digit.
   */
  method IsInteger(str: Option<string>) returns (accepted: bool)
    requires str.Some? ==> CString(str.value)
    ensures accepted <==> str.Some? && IntegerText(str.value)
  {
    if str.None? || CharAt(str.value, 0) == '\0' {
      return false;
    }
    var s := str.value;
    var p := SkipSpacesFrom(s, 0);
    if CharAt(s, p) == '+' || CharAt(s, p) == '-' {
      p := p + 1;
    }
    ghost var j := p;
    var hasDigit := false;
    while CharAt(s, p) != '\0'
      invariant j <= p <= |s|
      invariant forall x :: j <= x < p ==> IsDigit(s[x])
      invariant hasDigit <==> j < p
      decreases |s| - p
    {
      if !IsDigit(CharAt(s, p)) {
        SkipDigitsAt(s, j, p);
        p := SkipSpacesFrom(s, p);
        return CharAt(s, p) == '\0' && hasDigit;
      }
      hasDigit := true;
      p := p + 1;
    }
    SkipDigitsAt(s, j, p);
    SkipSpacesAt(s, p, p);
    return hasDigit;
  }

  /** The `isspace` loop: advance the cursor past spaces. */
  method SkipSpacesFrom(s: string, p0: nat) returns (p: nat)
    requires p0 <= |s| && CString(s)
    ensures p == SkipSpaces(s, p0)
  {
    p := p0;
    while IsSpace(CharAt(s, p))
      invariant p0 <= p <= |s|
      invariant forall x :: p0 <= x < p ==> IsSpace(s[x])
      decreases |s| - p
    {
      p := p + 1;
    }
    SkipSpacesAt(s, p0, p);
  }

  // ------------------------------------------------------------ parsuj_argumenty

  /** The values `parsuj_argumenty` writes through its out-pointers; None stands for NULL. */
  datatype Options = Options(
    input: Option<string>,
    output: Option<string>,
    parts: int,
    margin: int,
    format: string,
    algorithm: string,
    hybrid: bool)

  /** The parser either returns the options or, for `-h`, prints the usage and exits with success. */
  datatype Outcome = Parsed(options: Options) | HelpRequested

  const Defaults := Options(None, None, 2, 10, "txt", "modulo", false)

  predicate IsFormat(s: string)
  {
    s == "txt" || s == "bin"
  }

  predicate IsAlgorithm(s: string)
  {
    s == "modulo" || s == "sekwencyjny" || s == "losowy"
  }

  /** What the rest of the program may rely on after parsing. */
  predicate ValidOptions(o: Options)
  {
    o.parts > 0 && 0 <= o.margin <= 100 && IsFormat(o.format) && IsAlgorithm(o.algorithm)
  }

  /** The first argument is skipped as the program name unless it starts with '-'. */
  function FirstIndex(argv: seq<string>): (start: nat)
    ensures start <= |argv|
  {
    if |argv| > 0 && CharAt(argv[0], 0) != '-' then 1 else 0
  }

  /** One pass of the loop body: the options after argument `i`, and the index of the next unread one. */
  datatype Step = Continue(options: Options, next: nat) | Help

  function StepAt(argv: seq<string>, i: nat, o: Options): (r: Step)
    requires i < |argv|
    ensures r.Continue? ==> i < r.next <= |argv|
  {
    var arg := argv[i];
    var hasValue := i + 1 < |argv|;
    if CharAt(arg, 0) != '-' then
      if o.input.None? then Continue(o.(input := Some(arg)), i + 1)
      else if o.output.None? then Continue(o.(output := Some(arg)), i + 1)
      else Continue(o, i + 1)
    else if |arg| < 2 then Continue(o, i + 1)
    else match arg[1]
      case 'i' => if hasValue then Continue(o.(input := Some(argv[i + 1])), i + 2) else Continue(o, i + 1)
      case 'o' => if hasValue then Continue(o.(output := Some(argv[i + 1])), i + 2) else Continue(o, i + 1)
      case 'p' =>
        if !hasValue then Continue(o, i + 1)
        else if IntegerText(argv[i + 1]) && Atoi(argv[i + 1]) > 0 then Continue(o.(parts := Atoi(argv[i + 1])), i + 2)
        else Continue(o, i + 2)
      case 'm' =>
        if !hasValue then Continue(o, i + 1)
        else if IntegerText(argv[i + 1]) && 0 <= Atoi(argv[i + 1]) <= 100 then Continue(o.(margin := Atoi(argv[i + 1])), i + 2)
        else Continue(o, i + 2)
      case 'f' =>
        if !hasValue then Continue(o, i + 1)
        else if IsFormat(argv[i + 1]) then Continue(o.(format := argv[i + 1]), i + 2)
        else Continue(o, i + 2)
      case 'a' =>
        if !hasValue then Continue(o, i + 1)
        else if IsAlgorithm(argv[i + 1]) then Continue(o.(algorithm := argv[i + 1]), i + 2)
        else Continue(o, i + 2)
      case 'y' => Continue(o.(hybrid := true), i + 1)
      case 'h' => Help
      case _ => Continue(o, i + 1)
  }

  /** The loop from argument `i` on, starting from options `o`. */
  function ParseFrom(argv: seq<string>, i: nat, o: Options): Outcome
    requires i <= |argv|
    decreases |argv| - i
  {
    if i == |argv| then Parsed(o)
    else match StepAt(argv, i, o)
      case Help => HelpRequested
      case Continue(o', next) => ParseFrom(argv, next, o')
  }

  /** `parsuj_argumenty` on the whole argument vector. */
  function Parse(argv: seq<string>): Outcome
  {
    ParseFrom(argv, FirstIndex(argv), Defaults)
  }

  /** Every step keeps the options valid. */
  lemma StepKeepsValid(argv: seq<string>, i: nat, o: Options)
    requires i < |argv| && ValidOptions(o)
    ensures StepAt(argv, i, o).Continue? ==> ValidOptions(StepAt(argv, i, o).options)
  {
  }

  /** Parsing from valid options gives valid options. */
  lemma {:induction false} ParseFromValid(argv: seq<string>, i: nat, o: Options)
    requires i <= |argv| && ValidOptions(o)
    ensures ParseFrom(argv, i, o).Parsed? ==> ValidOptions(ParseFrom(argv, i, o).options)
    decreases |argv| - i
  {
    if i < |argv| {
      StepKeepsValid(argv, i, o);
      if StepAt(argv, i, o).Continue? {
        ParseFromValid(argv, StepAt(argv, i, o).next, StepAt(argv, i, o).options);
      }
    }
  }

  /** Whatever the arguments, parsed options are valid: the parts positive, the margin a percentage, a known format and algorithm. */
  lemma ParseValid(argv: seq<string>)
    ensures Parse(argv).Parsed? ==> ValidOptions(Parse(argv).options)
  {
    ParseFromValid(argv, FirstIndex(argv), Defaults);
  }

  /** With nothing but the program name, the options are the defaults. */
  lemma NoArguments(program: string)
    requires CharAt(program, 0) != '-'
    ensures Parse([]) == Parsed(Defaults) && Parse([program]) == Parsed(Defaults)
    ensures Defaults.parts == 2 && Defaults.margin == 10 && Defaults.format == "txt"
    ensures Defaults.algorithm == "modulo" && !Defaults.hybrid
  {
  }

  /** The options once the bare arguments `rest` have been placed: the input file first, then the output file. */
  function Filled(o: Options, rest: seq<string>): Options
  {
    if o.input.None? && rest != [] then
      o.(input := Some(rest[0]), output := if o.output.None? && |rest| > 1 then Some(rest[1]) else o.output)
    else if o.output.None? && rest != [] then o.(output := Some(rest[0]))
    else o
  }

  lemma {:induction false} BareFrom(argv: seq<string>, i: nat, o: Options)
    requires i <= |argv|
    requires forall x :: i <= x < |argv| ==> CharAt(argv[x], 0) != '-'
    ensures ParseFrom(argv, i, o) == Parsed(Filled(o, argv[i..]))
    decreases |argv| - i
  {
    if i < |argv| {
      var step := StepAt(argv, i, o);
      BareFrom(argv, i + 1, step.options);
      assert argv[i..][1..] == argv[i + 1..];
      if o.input.None? && o.output.None? && |argv| - i > 1 {
        assert argv[i + 1..][0] == argv[i + 1];
      }
    }
  }

  /**
   * Bare arguments after the program name: the first is the input file,
   * the second the output file, any further ones are ignored; everything
   * else keeps its default.
   */
  lemma BareArguments(program: string, files: seq<string>)
    requires CharAt(program, 0) != '-'
    requires forall f :: f in files ==> CharAt(f, 0) != '-'
    ensures Parse([program] + files) == Parsed(Defaults.(
      input := if |files| > 0 then Some(files[0]) else None,
      output := if |files| > 1 then Some(files[1]) else None))
  {
    var argv := [program] + files;
    assert forall x :: 1 <= x < |argv| ==> argv[x] == files[x - 1];
    BareFrom(argv, 1, Defaults);
    assert argv[1..] == files;
  }

  /** An option that takes a value consumes the next argument, whatever it is: "-p -h" does not ask for help. */
  lemma ValueConsumed(argv: seq<string>, i: nat, o: Options)
    requires i + 1 < |argv| && |argv[i]| >= 2 && argv[i][0] == '-' && argv[i][1] in "iopmfa"
    ensures StepAt(argv, i, o).Continue? && StepAt(argv, i, o).next == i + 2
  {
  }

  /** `-p` alone: the part count is the value if it is an integer above zero, and 2 otherwise. */
  lemma PartsOption(program: string, value: string)
    requires CharAt(program, 0) != '-'
    ensures Parse([program, "-p", value]) ==
      Parsed(if IntegerShaped(value) && Atoi(value) > 0 then Defaults.(parts := Atoi(value)) else Defaults)
  {
    IntegerTextShape(value);
    var argv := [program, "-p", value];
    assert FirstIndex(argv) == 1 && |argv[1]| == 2 && argv[1][0] == '-' && argv[1][1] == 'p';
    var step := StepAt(argv, 1, Defaults);
    assert step.Continue? && step.next == 3;
    assert Parse(argv) == ParseFrom(argv, 3, step.options) == Parsed(step.options);
  }

  /** `-m` alone: the margin is the value if it is an integer from 0 to 100, and 10 otherwise. */
  lemma MarginOption(program: string, value: string)
    requires CharAt(program, 0) != '-'
    ensures Parse([program, "-m", value]) ==
      Parsed(if IntegerShaped(value) && 0 <= Atoi(value) <= 100 then Defaults.(margin := Atoi(value)) else Defaults)
  {
    IntegerTextShape(value);
    var argv := [program, "-m", value];
    assert FirstIndex(argv) == 1 && |argv[1]| == 2 && argv[1][0] == '-' && argv[1][1] == 'm';
    var step := StepAt(argv, 1, Defaults);
    assert step.Continue? && step.next == 3;
    assert Parse(argv) == ParseFrom(argv, 3, step.options) == Parsed(step.options);
  }

  /** `-f` alone: only "txt" and "bin" replace the default format. */
  lemma FormatOption(program: string, value: string)
    requires CharAt(program, 0) != '-'
    ensures Parse([program, "-f", value]) == Parsed(if IsFormat(value) then Defaults.(format := value) else Defaults)
  {
    var argv := [program, "-f", value];
    assert FirstIndex(argv) == 1 && |argv[1]| == 2 && argv[1][0] == '-' && argv[1][1] == 'f';
    var step := StepAt(argv, 1, Defaults);
    assert step.Continue? && step.next == 3;
    assert Parse(argv) == ParseFrom(argv, 3, step.options) == Parsed(step.options);
  }

  /** `-a` alone: only the three algorithm names replace the default. */
  lemma AlgorithmOption(program: string, value: string)
    requires CharAt(program, 0) != '-'
    ensures Parse([program, "-a", value]) == Parsed(if IsAlgorithm(value) then Defaults.(algorithm := value) else Defaults)
  {
    var argv := [program, "-a", value];
    assert FirstIndex(argv) == 1 && |argv[1]| == 2 && argv[1][0] == '-' && argv[1][1] == 'a';
    var step := StepAt(argv, 1, Defaults);
    assert step.Continue? && step.next == 3;
    assert Parse(argv) == ParseFrom(argv, 3, step.options) == Parsed(step.options);
  }

  /** `-h` in option position ends parsing, whatever follows. */
  lemma HelpOption(program: string, rest: seq<string>)
    requires CharAt(program, 0) != '-'
    ensures Parse([program, "-h"] + rest) == HelpRequested
  {
    var argv := [program, "-h"] + rest;
    assert argv[1] == "-h";
  }

  /**
   * `parsuj_argumenty`: set the defaults, then walk the arguments. An
   * option letter taking a value consumes the next argument whenever there
   * is one, keeping the current value when it is not acceptable; `-h`
   * ends the program; bare arguments fill the input, then the output file.
   */
  method ParseArguments(argv: seq<string>) returns (outcome: Outcome)
    requires forall a :: a in argv ==> CString(a)
    ensures outcome == Parse(argv)
    ensures outcome.Parsed? ==> ValidOptions(outcome.options)
  {
    var o := Defaults;
    var i := if |argv| > 0 && CharAt(argv[0], 0) != '-' then 1 else 0;
    while i < |argv|
      invariant i <= |argv|
      invariant ParseFrom(argv, i, o) == Parse(argv)
      invariant ValidOptions(o)
      decreases |argv| - i
    {
      var step := ArgumentStep(argv, i, o);
      if step.Help? {
        return HelpRequested;
      }
      StepKeepsValid(argv, i, o);
      o, i := step.options, step.next;
    }
    return Parsed(o);
  }

  /** The body of the loop: the `switch` on the option letter, or a bare argument. */
  method ArgumentStep(argv: seq<string>, i0: nat, o0: Options) returns (step: Step)
    requires i0 < |argv| && forall a :: a in argv ==> CString(a)
    ensures step == StepAt(argv, i0, o0)
  {
    var o, i := o0, i0;
    var arg := argv[i];
    if CharAt(arg, 0) == '-' {
      if |arg| < 2 {
        return Continue(o, i + 1);
      }
      var hasValue := i + 1 < |argv|;
      var letter := arg[1];
      if letter == 'i' || letter == 'o' {
        if hasValue {
          i := i + 1;
          if letter == 'i' {
            o := o.(input := Some(argv[i]));
          } else {
            o := o.(output := Some(argv[i]));
          }
        }
      } else if letter == 'p' || letter == 'm' {
        if hasValue {
          var isNumber := IsInteger(Some(argv[i + 1]));
          i := i + 1;
          if isNumber {
            var value := Atoi(argv[i]);
            if letter == 'p' && value > 0 {
              o := o.(parts := value);
            } else if letter == 'm' && 0 <= value <= 100 {
              o := o.(margin := value);
            }
          }
        }
      } else if letter == 'f' {
        if hasValue {
          i := i + 1;
          if IsFormat(argv[i]) {
            o := o.(format := argv[i]);
          }
        }
      } else if letter == 'a' {
        if hasValue {
          i := i + 1;
          if IsAlgorithm(argv[i]) {
            o := o.(algorithm := argv[i]);
          }
        }
      } else if letter == 'y' {
        o := o.(hybrid := true);
      } else if letter == 'h' {
        return Help;
      }
    } else if o.input.None? {
      o := o.(input := Some(arg));
    } else if o.output.None? {
      o := o.(output := Some(arg));
    }
    return Continue(o, i + 1);
  }
}
