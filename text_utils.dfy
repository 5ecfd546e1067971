/** The string and date helpers of the main application: shortening text
    for display, initials of a name, admission numbers and ages. The clock
    and the random number generator are parameters. */
module TextUtils {
  import opened JsValues

  // ---------------------------------------------------------------------
  // truncateText
  // ---------------------------------------------------------------------

  /** The end index `slice(0, end)` uses: a negative end counts from the end
      of the string, and both are clamped to `0..len`. */
  function SliceEnd(len: nat, end: int): (k: nat)
    ensures k <= len
    ensures 0 <= end <= len ==> k == end
    ensures end > len ==> k == len
    ensures end < 0 ==> k == if len + end < 0 then 0 else len + end
  {
    if end < 0 then (if len + end < 0 then 0 else len + end)
    else if end > len then len
    else end
  }

  /** `truncateText(text, maxLength)`: empty or short enough text is kept;
      longer text is cut after `maxLength` characters and `...` appended. */
  function TruncateText(text: string, maxLength: int): (r: string)
    ensures text == "" || |text| <= maxLength ==> r == text
    ensures text != "" && |text| > maxLength >= 0 ==>
      |r| == maxLength + 3 && text[..maxLength] <= r && r[maxLength..] == "..."
    ensures text != "" && |text| > maxLength ==> 3 <= |r| <= |text| + 3 && r[|r| - 3..] == "..."
    ensures text != "" && maxLength < 0 ==>
      r == (if |text| + maxLength < 0 then "" else text[..|text| + maxLength]) + "..."
  {
    if text == "" || |text| <= maxLength then text
    else text[..SliceEnd(|text|, maxLength)] + "..."
  }

  // ---------------------------------------------------------------------
  // getInitials
  // ---------------------------------------------------------------------

  function CountChar(s: string, c: char): nat {
    if s == [] then 0 else (if s[0] == c then 1 else 0) + CountChar(s[1..], c)
  }

  /** `s.split(sep)` for a one-character separator: the pieces between
      separators, empty ones included. */
  function Split(s: string, sep: char): (parts: seq<string>)
    ensures |parts| == CountChar(s, sep) + 1
    ensures forall i :: 0 <= i < |parts| ==> sep !in parts[i]
  {
    if s == [] then [[]]
    else
      var rest := Split(s[1..], sep);
      if s[0] == sep then [[]] + rest else [[s[0]] + rest[0]] + rest[1..]
  }

  /** `parts.join(sep)` for a one-character separator: the inverse of
      `Split`, used to state its round trip. */
  function Join(parts: seq<string>, sep: char): (r: string)
    requires |parts| >= 1
    ensures parts[0] <= r
    ensures |parts| > 1 ==> parts[0] + [sep] <= r
    ensures |r| >= |parts| - 1
  {
    if |parts| == 1 then parts[0] else parts[0] + [sep] + Join(parts[1..], sep)
  }

  /** Joining the pieces with the separator gives the string back. */
  lemma {:induction false} SplitJoinRoundTrip(s: string, sep: char)
    ensures Join(Split(s, sep), sep) == s
  {
    if s != [] {
      var rest := Split(s[1..], sep);
      SplitJoinRoundTrip(s[1..], sep);
      if s[0] == sep {
        assert Split(s, sep) == [[]] + rest;
        assert ([[]] + rest)[1..] == rest;
      } else {
        var parts := [[s[0]] + rest[0]] + rest[1..];
        assert Split(s, sep) == parts;
        if |rest| == 1 {
          assert Join(parts, sep) == [s[0]] + rest[0];
        } else {
          assert parts[1..] == rest[1..];
          assert Join(rest, sep) == rest[0] + [sep] + Join(rest[1..], sep);
        }
      }
    }
  }

  /** `parts.map(part => part.charAt(0)).join('')`: an empty part
      contributes nothing. */
  function FirstChars(parts: seq<string>): (r: string)
    ensures |r| <= |parts|
  {
    if parts == [] then ""
    else (if parts[0] == "" then "" else [parts[0][0]]) + FirstChars(parts[1..])
  }

  /** The characters that begin a word: not a space, and either first or
      right after a space. `atStart` says whether the previous character was
      a space (or there was none). */
  function WordStarts(s: string, atStart: bool): string {
    if s == [] then ""
    else (if atStart && s[0] != ' ' then [s[0]] else "") + WordStarts(s[1..], s[0] == ' ')
  }

  /** The first characters of the pieces of a split on spaces are exactly
      the word starts; after the first piece, the non-start ones. */
  lemma {:induction false} FirstCharsAreWordStarts(s: string)
    ensures FirstChars(Split(s, ' ')) == WordStarts(s, true)
    ensures FirstChars(Split(s, ' ')[1..]) == WordStarts(s, false)
  {
    if s != [] {
      var rest := Split(s[1..], ' ');
      FirstCharsAreWordStarts(s[1..]);
      if s[0] == ' ' {
        assert Split(s, ' ') == [[]] + rest;
        assert ([[]] + rest)[1..] == rest;
      } else {
        var parts := [[s[0]] + rest[0]] + rest[1..];
        assert Split(s, ' ') == parts;
        assert parts[1..] == rest[1..];
      }
    }
  }

  /** `getInitials(name)`: the upper-cased word starts of the name, at most
      one per space-separated piece. */
  function GetInitials(name: string): (r: string)
    ensures name == "" ==> r == ""
    ensures r == Upper(WordStarts(name, true))
    ensures |r| <= CountChar(name, ' ') + 1
  {
    if name == "" then ""
    else
      FirstCharsAreWordStarts(name);
      Upper(FirstChars(Split(name, ' ')))
  }

  // ---------------------------------------------------------------------
  // generateAdmissionNumber
  // ---------------------------------------------------------------------

  /** `s.padStart(width, fill)` */
  function PadStart(s: string, width: nat, fill: char): (r: string)
    ensures |r| == if |s| >= width then |s| else width
    ensures r[|r| - |s|..] == s
    ensures forall i :: 0 <= i < |r| - |s| ==> r[i] == fill
  {
    if |s| >= width then s else seq(width - |s|, _ => fill) + s
  }

  /** Numbers below 1000 have at most three digits. */
  lemma ThreeDigitsAtMost(n: nat)
    requires n < 1000
    ensures |NatToString(n)| <= 3
  {
    if n >= 10 {
      var m := n / 10;
      assert m < 100;
      assert NatToString(n) == NatToString(m) + [DigitChar(n % 10)];
      if m >= 10 {
        assert m / 10 < 10;
        assert NatToString(m) == NatToString(m / 10) + [DigitChar(m % 10)];
      }
    }
  }

  /** `Math.floor(random * 1000)` for `random` in [0, 1), padded to three
      digits, reads back as that number. */
  lemma PaddedRandomRoundTrip(random: real)
    requires 0.0 <= random < 1.0
    ensures 0 <= (random * 1000.0).Floor < 1000
    ensures var digits := PadStart(NatToString((random * 1000.0).Floor), 3, '0');
      |digits| == 3 && AllDigits(digits) && DigitsValue(digits) == (random * 1000.0).Floor
  {
    var n: nat := (random * 1000.0).Floor;
    var text := NatToString(n);
    ThreeDigitsAtMost(n);
    var digits := PadStart(text, 3, '0');
    var zeros := digits[..|digits| - |text|];
    assert digits == zeros + text;
    LeadingZerosValue(zeros, text);
    NatToStringRoundTrip(n);
  }

  /** `generateAdmissionNumber(prefix = 'ADM', year = current year)`: the
      prefix, the year's decimal text, then the random number as exactly
      three digits. */
  function GenerateAdmissionNumber(prefix: Option<string>, year: Option<int>, currentYear: int, random: real): (r: string)
    requires 0.0 <= random < 1.0
    ensures var p := prefix.GetOr("ADM");
      var y := IntToString(year.GetOr(currentYear));
      |r| == |p| + |y| + 3 && r[..|p|] == p && r[|p|..|p| + |y|] == y &&
      AllDigits(r[|p| + |y|..]) && DigitsValue(r[|p| + |y|..]) == (random * 1000.0).Floor
  {
    PaddedRandomRoundTrip(random);
    var randomNum := PadStart(NatToString((random * 1000.0).Floor), 3, '0');
    var p := prefix.GetOr("ADM");
    var y := IntToString(year.GetOr(currentYear));
    ConcatParts(p, y, randomNum);
    p + y + randomNum
  }

  lemma ConcatParts(p: string, y: string, z: string)
    ensures var r := p + y + z;
      |r| == |p| + |y| + |z| && r[..|p|] == p && r[|p|..|p| + |y|] == y && r[|p| + |y|..] == z
  {
  }

  // ---------------------------------------------------------------------
  // calculateAge
  // ---------------------------------------------------------------------

  /** Calendar order on (year, month, day). */
  predicate OnOrBefore(a: CalendarDate, b: CalendarDate) {
    a.year < b.year ||
    (a.year == b.year && (a.month < b.month || (a.month == b.month && a.day <= b.day)))
  }

  /** The `n`-th anniversary of a birth date. */
  function Anniversary(birth: CalendarDate, n: int): CalendarDate {
    CalendarDate(birth.year + n, birth.month, birth.day)
  }

  /** `calculateAge(dateOfBirth)`: 0 for the empty string; otherwise the
      number of whole years, i.e. the last anniversary not after today.
      `birth` is `new Date(dateOfBirth)`, `today` is `new Date()`. */
  method CalculateAge(dateOfBirth: string, birth: CalendarDate, today: CalendarDate) returns (age: int)
    ensures dateOfBirth == "" ==> age == 0
    ensures dateOfBirth != "" ==>
      OnOrBefore(Anniversary(birth, age), today) && !OnOrBefore(Anniversary(birth, age + 1), today)
  {
    if dateOfBirth == "" {
      return 0;
    }
    age := today.year - birth.year;
    var monthDifference := today.month - birth.month;
    if monthDifference < 0 || (monthDifference == 0 && today.day < birth.day) {
      age := age - 1;
    }
  }

  /** The anniversary characterisation fixes the age uniquely. */
  lemma AgeIsUnique(birth: CalendarDate, today: CalendarDate, a: int, b: int)
    requires OnOrBefore(Anniversary(birth, a), today) && !OnOrBefore(Anniversary(birth, a + 1), today)
    requires OnOrBefore(Anniversary(birth, b), today) && !OnOrBefore(Anniversary(birth, b + 1), today)
    ensures a == b
  {
  }
}
