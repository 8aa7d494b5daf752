/**
 * The delay argument of the create command: `<digits><s|m|h|d>`, matched case-insensitively,
 * giving a number of seconds.  The parser is written the way a regular-expression engine runs
 * `(\d+)([smhd])` over the lower-cased input: one character at a time, accumulating the value
 * of the digits read so far.  `WellFormed` and `Number` are the independent reference reading
 * of the same format, and `ParseTimeDelayMeaning` ties the two together.
 *
 * Converting the digits with `int` refuses more than `MaxDigits` of them (the default limit on
 * integer string conversion of CPython 3.11 and later), raising the same `ValueError` as a
 * failed match, so such a delay is an invalid format too.
 */
module TimeDelay {
  import Text

  datatype Parse = Ok(seconds: nat) | InvalidFormat

  /** The text of the error the parser raises when the delay does not parse. */
  const InvalidFormatMessage: string :=
    "Invalid time format. Use number + s/m/h/d, e.g. 30s, 5m, 48h, 2d."

  /** The reply the create command sends when the parser raises. */
  const InvalidFormatReply: string := "❌ " + InvalidFormatMessage

  /** The most digits `int` converts from a string before raising `ValueError`. */
  const MaxDigits: nat := 4300

  /** The create command's default delay. */
  const DefaultDelay: string := "0s"

  predicate IsDigit(c: char) { '0' <= c <= '9' }

  predicate IsUnit(c: char) { c == 's' || c == 'm' || c == 'h' || c == 'd' }

  function DigitValue(c: char): nat
    requires IsDigit(c)
  {
    c as int - '0' as int
  }

  /** Seconds per unit: a second, a minute, an hour, a day. */
  function UnitSeconds(u: char): nat
    requires IsUnit(u)
  {
    if u == 's' then 1 else if u == 'm' then 60 else if u == 'h' then 3600 else 86400
  }

  predicate AllDigits(s: string) {
    forall i :: 0 <= i < |s| ==> IsDigit(s[i])
  }

  /** The decimal value of a digit string, most significant digit first. */
  function Number(ds: string): nat
    requires AllDigits(ds)
  {
    if ds == [] then 0 else 10 * Number(ds[..|ds| - 1]) + DigitValue(ds[|ds| - 1])
  }

  /** One to `MaxDigits` digits followed by exactly one unit letter, in either case. */
  predicate WellFormed(s: string) {
    2 <= |s| <= MaxDigits + 1 && AllDigits(s[..|s| - 1]) && IsUnit(Text.LowerChar(s[|s| - 1]))
  }

  /** Runs the pattern over the lower-cased text `t` from position `i`, `acc` being the value of the digits before `i`. */
  function Scan(t: string, i: nat, acc: nat): Parse
    decreases |t| - i
  {
    if i >= |t| then InvalidFormat
    else if IsDigit(t[i]) then Scan(t, i + 1, 10 * acc + DigitValue(t[i]))
    else if IsUnit(t[i]) && 0 < i && i == |t| - 1 then
      if i <= MaxDigits then Ok(acc * UnitSeconds(t[i])) else InvalidFormat
    else InvalidFormat
  }

  function ParseTimeDelay(s: string): Parse {
    Scan(Text.Lower(s), 0, 0)
  }

  /**
   * The scanner, started after a run of digits, accepts exactly the lower-case texts of one to
   * `MaxDigits` digits and a unit letter.
   */
  lemma {:induction false} ScanMeaning(t: string, i: nat, acc: nat)
    requires i <= |t| && AllDigits(t[..i]) && acc == Number(t[..i])
    ensures Scan(t, i, acc).Ok? <==>
      2 <= |t| <= MaxDigits + 1 && AllDigits(t[..|t| - 1]) && IsUnit(t[|t| - 1])
    ensures Scan(t, i, acc).Ok? ==> Scan(t, i, acc).seconds == Number(t[..|t| - 1]) * UnitSeconds(t[|t| - 1])
    decreases |t| - i
  {
    if i < |t| {
      if IsDigit(t[i]) {
        var next := t[..i + 1];
        assert next == t[..i] + [t[i]];
        assert next[..i] == t[..i];
        assert AllDigits(next) by {
          forall k | 0 <= k < i + 1
            ensures IsDigit(next[k])
          {
            if k < i {
              assert next[k] == t[..i][k];
            }
          }
        }
        ScanMeaning(t, i + 1, 10 * acc + DigitValue(t[i]));
      }
    }
  }

  /**
   * The parser succeeds exactly on well-formed delays (at most `MaxDigits` digits), and then
   * yields the digits' value times 1, 60, 3600 or 86400 according to the unit letter.
   */
  lemma ParseTimeDelayMeaning(s: string)
    ensures ParseTimeDelay(s).Ok? <==> WellFormed(s)
    ensures WellFormed(s) ==>
      ParseTimeDelay(s) == Ok(Number(s[..|s| - 1]) * UnitSeconds(Text.LowerChar(s[|s| - 1])))
  {
    var t := Text.Lower(s);
    ScanMeaning(t, 0, 0);
    if |s| >= 1 {
      // Lower-casing leaves digits alone and turns no other character into a digit.
      assert AllDigits(s[..|s| - 1]) <==> AllDigits(t[..|t| - 1]) by {
        forall k | 0 <= k < |s| - 1
          ensures IsDigit(s[k]) <==> IsDigit(t[k])
        {
          assert t[k] == Text.LowerChar(s[k]);
        }
      }
      if AllDigits(s[..|s| - 1]) {
        assert s[..|s| - 1] == t[..|t| - 1];
      }
    }
  }

  /** Upper- and lower-case unit letters give the same result ("5M" and "5m"). */
  lemma ParseIgnoresCase(s: string)
    ensures ParseTimeDelay(Text.Upper(s)) == ParseTimeDelay(s)
    ensures ParseTimeDelay(Text.Lower(s)) == ParseTimeDelay(s)
  {
    Text.LowerOfUpper(s);
    Text.LowerIdempotent(s);
  }

  /** The empty string, a leading sign, and anything after the unit letter are all rejected. */
  lemma ParseRejects(s: string, tail: string)
    ensures ParseTimeDelay("") == InvalidFormat
    ensures |s| > 0 && (s[0] == '-' || s[0] == '+') ==> ParseTimeDelay(s) == InvalidFormat
    ensures ParseTimeDelay(s).Ok? && tail != [] ==> ParseTimeDelay(s + tail) == InvalidFormat
  {
    ParseTimeDelayMeaning("");
    ParseTimeDelayMeaning(s);
    ParseTimeDelayMeaning(s + tail);
    if |s| > 0 && (s[0] == '-' || s[0] == '+') && |s| >= 2 {
      assert !IsDigit(s[..|s| - 1][0]);
    }
    if ParseTimeDelay(s).Ok? && tail != [] {
      var u := s + tail;
      assert u[..|u| - 1][|s| - 1] == s[|s| - 1];
    }
  }

  /** The default delay "0s" parses to zero seconds. */
  lemma DefaultDelayIsImmediate()
    ensures ParseTimeDelay(DefaultDelay) == Ok(0)
  {
    ParseTimeDelayMeaning(DefaultDelay);
  }

  /** The decimal rendering of a natural number, with no leading zeros. */
  function Decimal(n: nat): (r: string)
    ensures |r| > 0 && AllDigits(r)
    ensures Number(r) == n
  {
    var d := ('0' as int + n % 10) as char;
    if n < 10 then
      assert Number([d]) == 10 * Number([]) + DigitValue(d);
      [d]
    else
      var r := Decimal(n / 10) + [d];
      assert r[..|r| - 1] == Decimal(n / 10);
      r
  }

  /**
   * Writing a number and a unit letter, in either case, and parsing it back gives the seconds it
   * denotes, unless the number has more than `MaxDigits` digits, which is an invalid format.
   */
  lemma ParseOfRendering(n: nat, unit: char)
    requires IsUnit(Text.LowerChar(unit))
    ensures ParseTimeDelay(Decimal(n) + [unit]) ==
      if |Decimal(n)| <= MaxDigits then Ok(n * UnitSeconds(Text.LowerChar(unit))) else InvalidFormat
  {
    var s := Decimal(n) + [unit];
    assert s[..|s| - 1] == Decimal(n);
    ParseTimeDelayMeaning(s);
  }
}
