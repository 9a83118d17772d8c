/**
 * The name under which a capture is saved: `datetime.now()` formatted with
 * `strftime("%Y%m%d_%H%M%S")`, joined under the save directory as
 * `photo_<stamp>.jpg` by `os.path.join`.
 */
module Timestamp {
  import opened Optional
  import opened Text

  /** A wall-clock reading to the second (the microseconds of `datetime` never reach the name). */
  datatype DateTime = DateTime(year: nat, month: nat, day: nat, hour: nat, minute: nat, second: nat)

  /** The field ranges a `datetime` keeps (day-of-month against the month's length is not checked). */
  predicate WellFormed(d: DateTime) {
    1 <= d.year <= 9999 && 1 <= d.month <= 12 && 1 <= d.day <= 31 &&
    d.hour <= 23 && d.minute <= 59 && d.second <= 59
  }

  /** The `%Y%m%d` half of the stamp. */
  function DatePart(d: DateTime): (s: string)
    ensures WellFormed(d) ==> |s| == 8 && AllDigits(s)
  {
    ZeroPad(d.year, 4) + ZeroPad(d.month, 2) + ZeroPad(d.day, 2)
  }

  /** The `%H%M%S` half of the stamp. */
  function TimePart(d: DateTime): (s: string)
    ensures WellFormed(d) ==> |s| == 6 && AllDigits(s)
  {
    ZeroPad(d.hour, 2) + ZeroPad(d.minute, 2) + ZeroPad(d.second, 2)
  }

  /**
   * `strftime("%Y%m%d_%H%M%S")`: every field zero-padded, the year to four
   * digits. For a well-formed reading that is fifteen characters, eight
   * digits, an underscore and six digits.
   */
  function Stamp(d: DateTime): (s: string)
    ensures WellFormed(d) ==> |s| == 15 && s[8] == '_' && AllDigits(s[..8]) && AllDigits(s[9..])
  {
    var date, time := DatePart(d), TimePart(d);
    var s := date + "_" + time;
    assert s[..|date|] == date && s[|date| + 1..] == time;
    s
  }

  /** Reads a stamp back; the inverse of `Stamp` on well-formed readings. */
  function ParseStamp(s: string): Option<DateTime> {
    if |s| == 15 && s[8] == '_' && AllDigits(s[..8]) && AllDigits(s[9..]) then
      var date, time := s[..8], s[9..];
      var d := DateTime(DecimalValue(date[..4]), DecimalValue(date[4..6]), DecimalValue(date[6..]),
                        DecimalValue(time[..2]), DecimalValue(time[2..4]), DecimalValue(time[4..]));
      if WellFormed(d) then Some(d) else None
    else None
  }

  lemma DatePartValues(d: DateTime)
    requires WellFormed(d)
    ensures var date := DatePart(d);
      DecimalValue(date[..4]) == d.year && DecimalValue(date[4..6]) == d.month && DecimalValue(date[6..]) == d.day
  {
    var y, m, dd := ZeroPad(d.year, 4), ZeroPad(d.month, 2), ZeroPad(d.day, 2);
    var date := DatePart(d);
    assert date[..4] == y && date[4..6] == m && date[6..] == dd;
    ZeroPadValue(d.year, 4);
    ZeroPadValue(d.month, 2);
    ZeroPadValue(d.day, 2);
  }

  lemma TimePartValues(d: DateTime)
    requires WellFormed(d)
    ensures var time := TimePart(d);
      DecimalValue(time[..2]) == d.hour && DecimalValue(time[2..4]) == d.minute && DecimalValue(time[4..]) == d.second
  {
    var h, m, sec := ZeroPad(d.hour, 2), ZeroPad(d.minute, 2), ZeroPad(d.second, 2);
    var time := TimePart(d);
    assert time[..2] == h && time[2..4] == m && time[4..] == sec;
    ZeroPadValue(d.hour, 2);
    ZeroPadValue(d.minute, 2);
    ZeroPadValue(d.second, 2);
  }

  /** The stamp loses nothing of a well-formed reading: parsing it gives the reading back. */
  lemma StampRoundTrip(d: DateTime)
    requires WellFormed(d)
    ensures ParseStamp(Stamp(d)) == Some(d)
  {
    var s := Stamp(d);
    assert s[..8] == DatePart(d) && s[9..] == TimePart(d);
    DatePartValues(d);
    TimePartValues(d);
  }

  /** Two well-formed readings get the same stamp only when they are the same second. */
  lemma StampInjective(d1: DateTime, d2: DateTime)
    requires WellFormed(d1) && WellFormed(d2)
    ensures Stamp(d1) == Stamp(d2) <==> d1 == d2
  {
    StampRoundTrip(d1);
    StampRoundTrip(d2);
  }

  /** The separator `os.path.join` puts between a directory and a relative name. */
  function Separator(dir: string): string {
    if dir != [] && dir[|dir| - 1] != '/' then "/" else ""
  }

  /**
   * `os.path.join(dir, name)` with the POSIX separator: an absolute name
   * replaces the directory; otherwise the name follows the directory, with
   * one '/' between them exactly when the directory is non-empty and does
   * not already end in one.
   */
  function PathJoin(dir: string, name: string): (path: string)
    ensures |name| > 0 && name[0] == '/' ==> path == name
    ensures |name| <= |path| && path[|path| - |name|..] == name
    ensures (|name| == 0 || name[0] != '/') ==>
      dir <= path && |path| == |dir| + |Separator(dir)| + |name| &&
      path[|dir|..|path| - |name|] == Separator(dir)
  {
    if |name| > 0 && name[0] == '/' then name
    else if dir == [] || dir[|dir| - 1] == '/' then dir + name
    else dir + "/" + name
  }

  /** `f"photo_{timestamp}.jpg"`. */
  function PhotoName(d: DateTime): string {
    "photo_" + Stamp(d) + ".jpg"
  }

  /**
   * `os.path.join(self.save_dir, f"photo_{timestamp}.jpg")`: the directory,
   * its separator, then the file name.
   */
  function PhotoPath(dir: string, d: DateTime): (path: string)
    ensures path == dir + Separator(dir) + PhotoName(d)
  {
    var name := PhotoName(d);
    assert name[0] == 'p';
    PathJoin(dir, name)
  }

  /** Under one save directory, the file name tells the second of the capture: different seconds, different files. */
  lemma PhotoPathInjective(dir: string, d1: DateTime, d2: DateTime)
    requires WellFormed(d1) && WellFormed(d2)
    ensures PhotoPath(dir, d1) == PhotoPath(dir, d2) <==> d1 == d2
  {
    var prefix := dir + Separator(dir);
    var n1, n2 := PhotoName(d1), PhotoName(d2);
    assert PhotoPath(dir, d1) == prefix + n1;
    assert PhotoPath(dir, d2) == prefix + n2;
    if PhotoPath(dir, d1) == PhotoPath(dir, d2) {
      assert n1 == PhotoPath(dir, d1)[|prefix|..];
      assert n2 == PhotoPath(dir, d2)[|prefix|..];
      assert Stamp(d1) == n1[6..21];
      assert Stamp(d2) == n2[6..21];
      StampInjective(d1, d2);
    }
  }
}
