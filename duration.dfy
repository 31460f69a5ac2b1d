/** formatDuration of ui/src/pages/subtitle/TranscribeVideoModal.tsx: a
    number of seconds as MM:SS, each field zero-padded to at least two
    digits. */
module Duration {
  import opened Decimal

  /** The minutes field: the whole minutes, padded to two digits and never
      cut, however many minutes there are. It reads back as the minutes. */
  function MinutesField(seconds: nat): (f: string)
    ensures |f| >= 2 && |f| >= |NatToString(seconds / 60)| && AllDigits(f)
    ensures |f| == if seconds / 60 < 10 then 2 else |NatToString(seconds / 60)|
    ensures ParseNat(f) == seconds / 60
  {
    PaddedReadsBack(seconds / 60);
    PadStart(NatToString(seconds / 60), 2, '0')
  }

  /** The seconds field: the seconds past the last whole minute, exactly two
      digits, reading back as a number below 60. */
  function SecondsField(seconds: nat): (f: string)
    ensures |f| == 2 && AllDigits(f)
    ensures ParseNat(f) == seconds % 60 && ParseNat(f) < 60
  {
    PaddedReadsBack(seconds % 60);
    PadStart(NatToString(seconds % 60), 2, '0')
  }

  /** formatDuration: digits, a ':' third from the end, and two more digits. */
  function FormatDuration(seconds: nat): (t: string)
    ensures |t| >= 5 && t[|t| - 3] == ':'
    ensures seconds < 6000 ==> |t| == 5
    ensures forall k :: 0 <= k < |t| && k != |t| - 3 ==> IsDigit(t[k])
  {
    MinutesField(seconds) + ":" + SecondsField(seconds)
  }

  /** A padded field is all digits and reads back as the number it renders. */
  lemma PaddedReadsBack(n: nat)
    ensures var f := PadStart(NatToString(n), 2, '0');
            |f| >= 2 && AllDigits(f) && ParseNat(f) == n
  {
    var s := NatToString(n);
    var f := PadStart(s, 2, '0');
    ParseLeadingZeros(|f| - |s|, s);
    ParseNatToString(n);
  }

  /** The text cuts at its ':' into the minutes field and the seconds field. */
  lemma FieldsAroundColon(seconds: nat)
    ensures var t := FormatDuration(seconds);
            var m := MinutesField(seconds);
            && |m| == |t| - 3
            && t[..|m|] == m && t[|m| + 1..] == SecondsField(seconds)
  {
    var t := FormatDuration(seconds);
    var m := MinutesField(seconds);
    assert t[..|m|] == m;
    assert t[|m| + 1..] == SecondsField(seconds);
  }

  /** Reading the two fields back gives the number: sixty times the minutes
      plus the seconds, with the seconds below 60. */
  lemma FormatDurationReadsBack(seconds: nat)
    ensures var t := FormatDuration(seconds);
            && AllDigits(t[..|t| - 3]) && AllDigits(t[|t| - 2..])
            && ParseNat(t[|t| - 2..]) < 60
            && 60 * ParseNat(t[..|t| - 3]) + ParseNat(t[|t| - 2..]) == seconds
  {
    FieldsAroundColon(seconds);
    var t := FormatDuration(seconds);
    var m := MinutesField(seconds);
    var f := SecondsField(seconds);
    assert t[..|t| - 3] == m && t[|t| - 2..] == f;
    assert ParseNat(m) == seconds / 60 && ParseNat(f) == seconds % 60;
  }

  /** Five minutes. */
  lemma FiveMinutes()
    ensures FormatDuration(300) == "05:00"
  {
    assert 300 / 60 == 5 && 300 % 60 == 0;
    assert NatToString(5) == "5";
    assert NatToString(0) == "0";
    assert MinutesField(300) == "05";
    assert SecondsField(300) == "00";
  }

  /** Two hours and five seconds: the minutes keep all three digits. */
  lemma TwoHours()
    ensures FormatDuration(7205) == "120:05"
  {
    assert 7205 / 60 == 120 && 7205 % 60 == 5;
    assert NatToString(1) == "1";
    assert NatToString(12) == NatToString(1) + "2";
    assert NatToString(120) == NatToString(12) + "0";
    assert MinutesField(7205) == "120";
    assert SecondsField(7205) == "05";
  }
}
