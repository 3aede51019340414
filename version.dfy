/**
 * calcurse_version and the version gate of the sync script
 * (contrib/caldav/calcurse-caldav.py).
 */
module Version {
  import opened Wrappers
  import opened Text

  predicate IsDigit(c: char) { '0' <= c <= '9' }

  predicate AllDigits(s: string) { forall i | 0 <= i < |s| :: IsDigit(s[i]) }

  /** The decimal value of a string of digits. */
  function DigitsValue(s: string): nat
    requires AllDigits(s)
  {
    if s == [] then 0 else 10 * DigitsValue(s[..|s| - 1]) + (s[|s| - 1] as int - '0' as int)
  }

  /**
   * Python's int(s) on a sign and ASCII digits; None where int() raises a
   * ValueError.
   */
  function ParseInt(s: string): (r: Option<int>)
    ensures r.Some? <==> (s != [] && AllDigits(s)) || (|s| >= 2 && (s[0] == '+' || s[0] == '-') && AllDigits(s[1..]))
    ensures s != [] && AllDigits(s) ==> r == Some(DigitsValue(s))
    ensures |s| >= 2 && s[0] == '+' && AllDigits(s[1..]) ==> r == Some(DigitsValue(s[1..]))
    ensures |s| >= 2 && s[0] == '-' && AllDigits(s[1..]) ==> r == Some(-(DigitsValue(s[1..]) as int))
  {
    assert s != [] && AllDigits(s) ==> IsDigit(s[0]);
    if s != [] && (s[0] == '+' || s[0] == '-') then
      if s[1..] != [] && AllDigits(s[1..]) then
        var n: int := DigitsValue(s[1..]);
        Some(if s[0] == '-' then -n else n)
      else None
    else if s != [] && AllDigits(s) then Some(DigitsValue(s))
    else None
  }

  /**
   * calcurse_version on the output of `calcurse --version`: Success(None)
   * when the output is not a calcurse banner, Success(Some(major * 10 + minor))
   * for one, and a Failure for the ValueError of a non-numeric component.
   */
  function CalcurseVersion(output: string): (r: Result<Option<int>>)
    ensures !(|output| >= 9 && output[..9] == "Calcurse ") ==> r == Success(None)
    ensures r.Failure? ==> r.error == InvalidLiteral
  {
    var tokens := Split(RStrip(output), ' ');
    if |tokens| < 2 then Success(None)
    else if tokens[0] != "Calcurse" then Success(None)
    else
      var parts := Split(tokens[1], '.');
      if |parts| < 2 then Success(None)
      else
        match (ParseInt(parts[0]), ParseInt(parts[1]))
        case (Some(major), Some(minor)) => Success(Some(major * 10 + minor))
        case _ => Failure(InvalidLiteral)
  }

  const InvalidLiteral := "ValueError: invalid literal for int() with base 10"
  const InvalidBinary := "Invalid calcurse binary. Make sure that the file specified in the configuration is a valid and up-to-date calcurse binary."
  const IncompatibleBinary := "Incompatible calcurse binary detected. Version >=4.0.0 is required to synchronize with CalDAV servers."

  /** The check of a run: the binary must be recognised and at least version 4.0. */
  function VersionGate(v: Option<int>): (o: Outcome)
    ensures o.Pass? <==> v.Some? && v.value >= 40
  {
    if v.None? then Fail(InvalidBinary)
    else if v.value < 40 then Fail(IncompatibleBinary)
    else Pass
  }

  /** rstrip() only reaches into the part after a prefix that ends in a non-space. */
  lemma {:induction false} RStripAfter(p: string, s: string)
    requires p != [] && !IsSpace(p[|p| - 1])
    ensures RStrip(p + s) == p + RStrip(s)
  {
    if s != [] {
      assert (p + s)[..|p + s| - 1] == p + s[..|s| - 1];
      if IsSpace(s[|s| - 1]) {
        RStripAfter(p, s[..|s| - 1]);
      }
    }
  }

  /** A version number "<major>.<minor><rest>" has <major> and <minor> as its first two components. */
  lemma {:induction false} ComponentsOf(major: string, minor: string, rest: string)
    requires AllDigits(major) && AllDigits(minor)
    requires rest == [] || rest[0] == '.'
    ensures var parts := Split(major + "." + minor + rest, '.');
      |parts| >= 2 && parts[0] == major && parts[1] == minor
  {
    NoDotIn(major);
    NoDotIn(minor);
    assert major + "." + minor + rest == major + "." + (minor + rest);
    SplitAtFirst(major, minor + rest, '.');
    if rest == [] {
      SplitWithoutSep(minor + rest, '.');
    } else {
      assert minor + rest == minor + ['.'] + rest[1..];
      SplitAtFirst(minor, rest[1..], '.');
    }
  }

  /** Digits are never a dot. */
  lemma NoDotIn(s: string)
    requires AllDigits(s)
    ensures '.' !in s
  {
    assert forall i | 0 <= i < |s| :: s[i] != '.';
  }

  /** Splitting "<word> <number><tail>" where <tail> is empty or starts with a space. */
  lemma {:induction false} TokensOfStripped(word: string, number: string, tail: string)
    requires ' ' !in word && ' ' !in number
    requires tail == [] || tail[0] == ' '
    ensures var tokens := Split(word + [' '] + number + tail, ' ');
      |tokens| >= 2 && tokens[0] == word && tokens[1] == number
  {
    assert word + [' '] + number + tail == word + [' '] + (number + tail);
    SplitAtFirst(word, number + tail, ' ');
    if tail == [] {
      SplitWithoutSep(number + tail, ' ');
    } else {
      assert number + tail == number + [' '] + tail[1..];
      SplitAtFirst(number, tail[1..], ' ');
    }
  }

  /** The first two tokens of "Calcurse <number><tail>", once rstrip()ped, are "Calcurse" and <number>. */
  lemma TokensOf(number: string, tail: string)
    requires number != [] && ' ' !in number && !IsSpace(number[|number| - 1])
    requires tail == [] || tail[0] == ' '
    ensures var tokens := Split(RStrip("Calcurse " + number + tail), ' ');
      |tokens| >= 2 && tokens[0] == "Calcurse" && tokens[1] == number
  {
    var word := "Calcurse";
    var head := word + [' '] + number;
    assert head[|head| - 1] == number[|number| - 1];
    assert "Calcurse " + number + tail == head + tail;
    RStripAfter(head, tail);
    var stripped := RStrip(tail);
    assert stripped == [] || stripped[0] == ' ';
    TokensOfStripped(word, number, stripped);
  }

  /** What calcurse_version makes of an output whose first two tokens and components are known. */
  lemma VersionFromComponents(output: string, major: string, minor: string)
    requires AllDigits(major) && major != [] && AllDigits(minor) && minor != []
    requires var tokens := Split(RStrip(output), ' ');
      |tokens| >= 2 && tokens[0] == "Calcurse" &&
      var parts := Split(tokens[1], '.');
      |parts| >= 2 && parts[0] == major && parts[1] == minor
    ensures CalcurseVersion(output) == Success(Some(DigitsValue(major) * 10 + DigitsValue(minor)))
  {
    assert ParseInt(major) == Some(DigitsValue(major) as int);
    assert ParseInt(minor) == Some(DigitsValue(minor) as int);
  }

  lemma NoBlankIn(major: string, minor: string, rest: string)
    requires AllDigits(major) && AllDigits(minor)
    requires forall i | 0 <= i < |rest| :: !IsSpace(rest[i])
    ensures var number := major + "." + minor + rest;
      && (forall i | 0 <= i < |number| :: !IsSpace(number[i]))
      && ' ' !in number
  {
    var number := major + "." + minor + rest;
    forall i | 0 <= i < |number| ensures !IsSpace(number[i]) {
      if i < |major| { assert number[i] == major[i]; }
      else if i == |major| { }
      else if i < |major| + 1 + |minor| { assert number[i] == minor[i - |major| - 1]; }
      else { assert number[i] == rest[i - |major| - 1 - |minor|]; }
    }
    assert forall i | 0 <= i < |number| :: number[i] != ' ';
  }

  /** The banner is "Calcurse " and its version number, then the tail. */
  lemma BannerParts(major: string, minor: string, rest: string, tail: string)
    ensures "Calcurse " + major + "." + minor + rest + tail == "Calcurse " + (major + "." + minor + rest) + tail
  {
  }

  /**
   * A banner "Calcurse <major>.<minor><rest><tail>" yields major * 10 + minor,
   * where <rest> is empty or a further ".<patch>" without whitespace and <tail>
   * is empty or starts with a space (as in "Calcurse 4.7.1 - text-based organizer").
   */
  lemma VersionOfBanner(major: string, minor: string, rest: string, tail: string)
    requires major != [] && AllDigits(major)
    requires minor != [] && AllDigits(minor)
    requires (rest == [] || rest[0] == '.') && (forall i | 0 <= i < |rest| :: !IsSpace(rest[i]))
    requires tail == [] || tail[0] == ' '
    ensures CalcurseVersion("Calcurse " + major + "." + minor + rest + tail)
         == Success(Some(DigitsValue(major) * 10 + DigitsValue(minor)))
  {
    var number := major + "." + minor + rest;
    var output := "Calcurse " + major + "." + minor + rest + tail;
    BannerParts(major, minor, rest, tail);
    NoBlankIn(major, minor, rest);
    TokensOf(number, tail);
    ComponentsOf(major, minor, rest);
    VersionFromComponents(output, major, minor);
  }

  /**
   * A banner "Calcurse <number><tail>" whose number has no '.' (as in
   * "Calcurse 4") has fewer than two components and is not recognised.
   */
  lemma UndottedBanner(number: string, tail: string)
    requires number != [] && forall i | 0 <= i < |number| :: !IsSpace(number[i])
    requires '.' !in number
    requires tail == [] || tail[0] == ' '
    ensures CalcurseVersion("Calcurse " + number + tail) == Success(None)
  {
    assert !IsSpace(number[|number| - 1]);
    assert ' ' !in number by {
      forall i | 0 <= i < |number| ensures number[i] != ' ' {
        assert !IsSpace(number[i]);
      }
    }
    TokensOf(number, tail);
    SplitWithoutSep(number, '.');
  }

  /** The gate passes exactly for a banner of version 4.0 or later. */
  lemma GateOnBanner(major: string, minor: string, rest: string, tail: string)
    requires major != [] && AllDigits(major)
    requires minor != [] && AllDigits(minor)
    requires (rest == [] || rest[0] == '.') && (forall i | 0 <= i < |rest| :: !IsSpace(rest[i]))
    requires tail == [] || tail[0] == ' '
    ensures var v := CalcurseVersion("Calcurse " + major + "." + minor + rest + tail);
      v.Success? && (VersionGate(v.value).Pass? <==> DigitsValue(major) * 10 + DigitsValue(minor) >= 40)
  {
    VersionOfBanner(major, minor, rest, tail);
  }
}
