/**
 * timeUtils.ts `formatTimeFromISOString`: the "Started at" clock text. The
 * hour, minute and second fields of the parsed date (`getHours`,
 * `getMinutes`, `getSeconds`, in the local time zone) are parameters here.
 */
module TimeUtils {
  import opened JsString
  import Time

  /** `n < 10 ? `0${n}` : n`. */
  function ZeroPadBelowTen(n: int): string
  {
    if n < 10 then "0" + IntToString(n) else IntToString(n)
  }

  /** `${hours}:${mm}:${ss}`, the hours as they are. */
  function FormatTimeFromISOString(hours: int, minutes: int, seconds: int): string
  {
    IntToString(hours) + ":" + ZeroPadBelowTen(minutes) + ":" + ZeroPadBelowTen(seconds)
  }

  /**
   * On a minute or second field (0 to 59) the conditional "0" is exactly
   * two-digit padding: always two digits that read back as the field.
   */
  lemma ZeroPadBelowTenIsPadStart(n: int)
    requires 0 <= n < 60
    ensures ZeroPadBelowTen(n) == Time.Pad2(n)
    ensures |ZeroPadBelowTen(n)| == 2 && IsDigit(ZeroPadBelowTen(n)[0]) && IsDigit(ZeroPadBelowTen(n)[1])
    ensures ParseNat(ZeroPadBelowTen(n)) == n
  {
    Time.Pad2ReadsBack(n);
    if n < 10 {
      assert |IntToString(n)| == 1;
    }
  }

  /**
   * For the fields of a valid time of day the text splits at ':' into the
   * unpadded hours and the two-digit minutes and seconds, and the three
   * read back as the fields.
   */
  lemma FormatTimeFromISOStringReadsBack(hours: int, minutes: int, seconds: int)
    requires 0 <= hours < 24 && 0 <= minutes < 60 && 0 <= seconds < 60
    ensures var parts := Split(FormatTimeFromISOString(hours, minutes, seconds), ':');
      && parts == [NatToString(hours), ZeroPadBelowTen(minutes), ZeroPadBelowTen(seconds)]
      && (hours < 10 <==> |parts[0]| == 1)
      && ParseNat(parts[0]) == hours && ParseNat(parts[1]) == minutes && ParseNat(parts[2]) == seconds
  {
    ZeroPadBelowTenIsPadStart(minutes);
    ZeroPadBelowTenIsPadStart(seconds);
    ParseNatToString(hours);
    var fields := [NatToString(hours), ZeroPadBelowTen(minutes), ZeroPadBelowTen(seconds)];
    DigitsExclude(fields[0], ':');
    DigitsExclude(fields[1], ':');
    DigitsExclude(fields[2], ':');
    JoinThree(fields[0], fields[1], fields[2], ':');
    assert FormatTimeFromISOString(hours, minutes, seconds) == Join(fields, ':');
    SplitJoin(fields, ':');
  }
}
