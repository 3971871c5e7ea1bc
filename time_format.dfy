/**
 * time.tsx: the "total time spent" page. `formatMilliseconds` renders a
 * millisecond total as "HH:MM:SS" with the hours wrapped at 24, and the
 * total is only fetched once a user and a project are selected.
 */
module Time {
  import opened JsNumber
  import opened JsString

  /** `Math.floor((ms / 1000) % 60)`. */
  function SecondsField(ms: int): int
  {
    JsRem(ms, 60000) / 1000
  }

  /** `Math.floor((ms / (1000 * 60)) % 60)`. */
  function MinutesField(ms: int): int
  {
    JsRem(ms, 3600000) / 60000
  }

  /** `Math.floor((ms / (1000 * 60 * 60)) % 24)`. */
  function HoursField(ms: int): int
  {
    JsRem(ms, 86400000) / 3600000
  }

  /** `n.toString().padStart(2, "0")`. */
  function Pad2(n: int): string
  {
    PadStart(IntToString(n), 2, '0')
  }

  /** `formatMilliseconds(ms)`. */
  function FormatMilliseconds(ms: int): string
  {
    Pad2(HoursField(ms)) + ":" + Pad2(MinutesField(ms)) + ":" + Pad2(SecondsField(ms))
  }

  /**
   * On a non-negative total the three fields are the seconds and minutes
   * within the minute and hour, and the hour within the day.
   */
  lemma FieldsOfNonNegative(ms: int)
    requires ms >= 0
    ensures SecondsField(ms) == (ms / 1000) % 60
    ensures MinutesField(ms) == (ms / 60000) % 60
    ensures HoursField(ms) == (ms / 3600000) % 24
  {
    JsRemOfNonNegative(ms, 60000);
    JsRemOfNonNegative(ms, 3600000);
    JsRemOfNonNegative(ms, 86400000);
    ModDivNested(ms, 1000, 60);
    ModDivNested(ms, 60000, 60);
    ModDivNested(ms, 3600000, 24);
  }

  /**
   * A non-negative total always prints as eight characters "HH:MM:SS", and
   * the digits read back as the hour of the day, the minute and the second.
   */
  lemma FormatMillisecondsShape(ms: int)
    requires ms >= 0
    ensures var r := FormatMilliseconds(ms);
      && |r| == 8 && r[2] == ':' && r[5] == ':'
      && (forall i :: 0 <= i < 8 && i != 2 && i != 5 ==> IsDigit(r[i]))
      && ParseNat(r[0..2]) == (ms / 3600000) % 24
      && ParseNat(r[3..5]) == (ms / 60000) % 60
      && ParseNat(r[6..8]) == (ms / 1000) % 60
  {
    FieldsOfNonNegative(ms);
    var h, m, s := HoursField(ms), MinutesField(ms), SecondsField(ms);
    Pad2ReadsBack(h);
    Pad2ReadsBack(m);
    Pad2ReadsBack(s);
    ClockShape(Pad2(h), Pad2(m), Pad2(s));
    ClockDigits(Pad2(h), Pad2(m), Pad2(s));
  }

  /**
   * Any non-negative field pads to at least two digits that read back as
   * the field; below 100 it is exactly two.
   */
  lemma Pad2ReadsBack(n: int)
    requires n >= 0
    ensures |Pad2(n)| >= 2 && (n < 100 ==> |Pad2(n)| == 2)
    ensures forall i :: 0 <= i < |Pad2(n)| ==> IsDigit(Pad2(n)[i])
    ensures ParseNat(Pad2(n)) == n
  {
    if n < 100 {
      PadTwoDigits(n);
    } else {
      ParseNatToString(n);
    }
  }

  /** Where the parts of "aa:bb:cc" sit. */
  lemma ClockShape(a: string, b: string, c: string)
    requires |a| == 2 && |b| == 2 && |c| == 2
    ensures var r := a + ":" + b + ":" + c;
      && |r| == 8 && r[2] == ':' && r[5] == ':'
      && r[0..2] == a && r[3..5] == b && r[6..8] == c
      && r[0] == a[0] && r[1] == a[1] && r[3] == b[0] && r[4] == b[1] && r[6] == c[0] && r[7] == c[1]
  {
  }

  /** "aa:bb:cc" is all digits but for the two colons when its parts are. */
  lemma ClockDigits(a: string, b: string, c: string)
    requires |a| == 2 && |b| == 2 && |c| == 2
    requires forall i :: 0 <= i < 2 ==> IsDigit(a[i]) && IsDigit(b[i]) && IsDigit(c[i])
    ensures var r := a + ":" + b + ":" + c;
      forall i :: 0 <= i < 8 && i != 2 && i != 5 ==> IsDigit(r[i])
  {
    var r := a + ":" + b + ":" + c;
    forall i | 0 <= i < 8 && i != 2 && i != 5
      ensures IsDigit(r[i])
    {
      if i < 2 {
        assert r[i] == a[i];
      } else if i < 5 {
        assert r[i] == b[i - 3];
      } else {
        assert r[i] == c[i - 6];
      }
    }
  }

  /** A total and the same total plus one day print identically. */
  lemma FormatWrapsAtOneDay(ms: int)
    requires ms >= 0
    ensures FormatMilliseconds(ms + 86400000) == FormatMilliseconds(ms)
  {
    var later := ms + 86400000;
    FieldsOfNonNegative(ms);
    FieldsOfNonNegative(later);
    DivModUnique(later, 1000, ms / 1000 + 86400, ms % 1000);
    DivModUnique(later, 60000, ms / 60000 + 1440, ms % 60000);
    DivModUnique(later, 3600000, ms / 3600000 + 24, ms % 3600000);
    assert HoursField(later) == HoursField(ms);
    assert MinutesField(later) == MinutesField(ms);
    assert SecondsField(later) == SecondsField(ms);
  }

  /** Zero prints as "00:00:00". */
  lemma FormatZero()
    ensures FormatMilliseconds(0) == "00:00:00"
  {
    assert NatToString(0) == "0";
    assert Pad2(0) == "00";
  }

  /** The total-time request is skipped until both a user and a project are chosen. */
  function TotalTimeFetchSkipped(selectedUser: string, selectedProject: string): (skip: bool)
    ensures !skip <==> selectedUser != "" && selectedProject != ""
  {
    selectedUser == "" || selectedProject == ""
  }
}
