// The spelling of the files in the reports directory.
module ReportNames {
  import opened Common
  import ReportProtocol

  // ---- decimal numerals ----------------------------------------------------------

  // The zeros of the decimal digits of Unicode 16.0 other than the ASCII ones; the digits one to
  // nine follow each of them. `\d` matches all of these digits, and `int` reads them.
  const OTHER_ZEROS: seq<int> := [0x660] + [
    0x6F0, 0x7C0, 0x966, 0x9E6, 0xA66, 0xAE6, 0xB66, 0xBE6, 0xC66, 0xCE6, 0xD66,
    0xDE6, 0xE50, 0xED0, 0xF20, 0x1040, 0x1090, 0x17E0, 0x1810, 0x1946, 0x19D0, 0x1A80, 0x1A90,
    0x1B50, 0x1BB0, 0x1C40, 0x1C50, 0xA620, 0xA8D0, 0xA900, 0xA9D0, 0xA9F0, 0xAA50, 0xABF0, 0xFF10,
    0x104A0, 0x10D30, 0x10D40, 0x11066, 0x110F0, 0x11136, 0x111D0, 0x112F0, 0x11450, 0x114D0, 0x11650, 0x116C0,
    0x116D0, 0x116DA, 0x11730, 0x118E0, 0x11950, 0x11BF0, 0x11C50, 0x11D50, 0x11DA0, 0x11F50, 0x16130, 0x16A60,
    0x16AC0, 0x16B50, 0x16D70, 0x1CCF0, 0x1D7CE, 0x1D7D8, 0x1D7E2, 0x1D7EC, 0x1D7F6, 0x1E140, 0x1E2F0, 0x1E4F0,
    0x1E5F1, 0x1E950, 0x1FBF0
  ]

  // The value of `c` as one of the digits that start at the given zeros.
  function DigitIn(zeros: seq<int>, c: int): (value: Option<nat>)
    ensures value.Some? ==> value.value < 10
  {
    if zeros == [] then None
    else if zeros[0] <= c < zeros[0] + 10 then Some(c - zeros[0])
    else DigitIn(zeros[1..], c)
  }

  function DecimalValue(c: char): (value: Option<nat>)
    ensures value.Some? ==> value.value < 10
  {
    if '0' <= c <= '9' then Some(c as int - '0' as int)
    else if c as int < 0x660 then None
    else DigitIn(OTHER_ZEROS, c as int)
  }

  predicate IsDigit(c: char) { DecimalValue(c).Some? }

  predicate IsAscii(c: char) { '0' <= c <= '9' }

  predicate AllDigits(s: string) { forall i :: 0 <= i < |s| ==> IsDigit(s[i]) }

  function DigitOf(d: nat): char
    requires d < 10
  {
    ('0' as int + d) as char
  }

  function ValueOf(c: char): nat
    requires IsDigit(c)
  {
    DecimalValue(c).value
  }

  function ToDecimal(n: nat): string {
    if n < 10 then [DigitOf(n)] else ToDecimal(n / 10) + [DigitOf(n % 10)]
  }

  function FromDecimal(s: string): nat
    requires AllDigits(s)
  {
    if s == "" then 0 else FromDecimal(s[..|s| - 1]) * 10 + ValueOf(s[|s| - 1])
  }

  ghost predicate AllAscii(s: string) { forall i :: 0 <= i < |s| ==> IsAscii(s[i]) }

  // ASCII digits, and no superfluous leading zero.
  ghost predicate Canonical(s: string) { AllAscii(s) && s != "" && (s[0] != '0' || |s| == 1) }

  lemma {:induction false} DecimalRoundTrip(n: nat)
    ensures Canonical(ToDecimal(n)) && FromDecimal(ToDecimal(n)) == n
  {
    if n >= 10 {
      DecimalRoundTrip(n / 10);
      assert ToDecimal(n)[..|ToDecimal(n)| - 1] == ToDecimal(n / 10);
      LeadingZeroIsSmall(n / 10);
    }
  }

  lemma {:induction false} LeadingZeroIsSmall(n: nat)
    requires n > 0
    ensures ToDecimal(n)[0] != '0'
  {
    if n >= 10 {
      LeadingZeroIsSmall(n / 10);
    }
  }

  lemma {:induction false} NumeralRoundTrip(s: string)
    requires Canonical(s)
    ensures ToDecimal(FromDecimal(s)) == s
    ensures s[0] != '0' ==> FromDecimal(s) > 0
  {
    if |s| == 1 {
      assert s == [s[0]] && FromDecimal(s[..0]) == 0;
    } else {
      var front := s[..|s| - 1];
      NumeralRoundTrip(front);
      assert FromDecimal(s) / 10 == FromDecimal(front);
      assert s == front + [s[|s| - 1]];
    }
  }

  // ---- the names --------------------------------------------------------------------

  const PREFIX := "network-weekly-report-"
  const CURRENT_SUFFIX := ".docx"
  const CANDIDATE_SUFFIX := ".candidate"
  const BOUND := ".docx.candidate."
  const UNBOUND := ".docx.candidate"

  // `YYYY-Www`.
  predicate IsWeekCode(s: string) {
    |s| == 8 && AllDigits(s[..4]) && s[4..6] == "-W" && AllDigits(s[6..])
  }

  function ReportFileName(week: string): string {
    PREFIX + week + CURRENT_SUFFIX
  }

  function CandidateFileName(week: string, id: nat): string {
    ReportFileName(week) + CANDIDATE_SUFFIX + "." + ToDecimal(id)
  }

  function UnboundFileName(week: string): string {
    ReportFileName(week) + CANDIDATE_SUFFIX
  }

  // The pattern's `$` also matches before one final newline.
  function Chomped(s: string): string {
    if s != "" && s[|s| - 1] == '\n' then s[..|s| - 1] else s
  }

  predicate HasWeek(t: string) {
    |t| >= 30 && t[..22] == PREFIX && IsWeekCode(t[22..30])
  }

  function ParseCandidateName(s: string): Option<(string, nat)> {
    var t := Chomped(s);
    if HasWeek(t) && |t| > 46 && t[30..46] == BOUND && AllDigits(t[46..])
    then Some((t[22..30], FromDecimal(t[46..]))) else None
  }

  predicate IsUnboundCandidateName(s: string) {
    var t := Chomped(s);
    HasWeek(t) && t[30..] == UNBOUND
  }

  // ---- how names read back ------------------------------------------------------------

  lemma Sliced(week: string, tail: string)
    requires |week| == 8
    ensures var t := PREFIX + week + tail;
            |t| == 30 + |tail| && t[..22] == PREFIX && t[22..30] == week && t[30..] == tail
  {
  }

  lemma CandidateShape(week: string, id: nat)
    ensures CandidateFileName(week, id) == PREFIX + week + (BOUND + ToDecimal(id))
  {
  }

  lemma DigitsDoNotBreakLines(s: string)
    requires s != "" && IsDigit(s[|s| - 1])
    ensures Chomped(s) == s
  {
  }

  // Whatever digits the job's number is written in, it is read.
  lemma NumberReadsBack(week: string, digits: string)
    requires IsWeekCode(week) && digits != "" && AllDigits(digits)
    ensures ParseCandidateName(PREFIX + week + (BOUND + digits)) == Some((week, FromDecimal(digits)))
  {
    var tail := BOUND + digits;
    var t := PREFIX + week + tail;
    Sliced(week, tail);
    assert t[|t| - 1] == digits[|digits| - 1];
    DigitsDoNotBreakLines(t);
    assert t[30..46] == tail[..16] == BOUND;
    assert t[46..] == tail[16..] == digits;
  }

  // A candidate's name gives back its week and its job.
  lemma CandidateReadsBack(week: string, id: nat)
    requires IsWeekCode(week)
    ensures ParseCandidateName(CandidateFileName(week, id)) == Some((week, id))
  {
    CandidateShape(week, id);
    DecimalRoundTrip(id);
    NumberReadsBack(week, ToDecimal(id));
  }

  // The three kinds of name never coincide, whatever weeks and jobs they speak of.
  lemma NamesAreDisjoint(week: string, id: nat, other: string)
    requires IsWeekCode(week) && IsWeekCode(other)
    ensures !IsUnboundCandidateName(CandidateFileName(week, id))
    ensures ParseCandidateName(ReportFileName(other)).None? && !IsUnboundCandidateName(ReportFileName(other))
    ensures ParseCandidateName(UnboundFileName(other)).None? && IsUnboundCandidateName(UnboundFileName(other))
    ensures CandidateFileName(week, id) != ReportFileName(other)
    ensures CandidateFileName(week, id) != UnboundFileName(other)
    ensures ReportFileName(week) != UnboundFileName(other)
  {
    CandidateReadsBack(week, id);
    CandidateShape(week, id);
    Sliced(week, BOUND + ToDecimal(id));
    DecimalRoundTrip(id);
    DigitsDoNotBreakLines(CandidateFileName(week, id));
    Sliced(other, CURRENT_SUFFIX);
    assert UnboundFileName(other) == PREFIX + other + UNBOUND by {
      assert CURRENT_SUFFIX + CANDIDATE_SUFFIX == UNBOUND;
    }
    Sliced(other, UNBOUND);
  }

  // The names in full.
  lemma NamesInFull(week: string, id: nat)
    ensures ReportFileName(week) == "network-weekly-report-" + week + ".docx"
    ensures UnboundFileName(week) == "network-weekly-report-" + week + ".docx.candidate"
    ensures CandidateFileName(week, id) == "network-weekly-report-" + week + ".docx.candidate." + ToDecimal(id)
    ensures forall d: nat :: d < 10 ==> ToDecimal(d) == ["0123456789"[d]]
  {
    CandidateShape(week, id);
    assert CURRENT_SUFFIX + CANDIDATE_SUFFIX == UNBOUND;
  }

  // A name of `tail` behind the week `year-Wnumber`, possibly ended by a newline.
  ghost predicate HasForm(s: string, year: string, number: string, tail: string) {
    && |year| == 4 && AllDigits(year) && |number| == 2 && AllDigits(number)
    && var name := "network-weekly-report-" + year + "-W" + number + tail;
       s == name || s == name + "\n"
  }

  // What is read as a candidate's name, and what it is read as.
  lemma CandidateForm(s: string, year: string, number: string, digits: string)
    requires HasForm(s, year, number, ".docx.candidate." + digits) && digits != "" && AllDigits(digits)
    ensures ParseCandidateName(s) == Some((year + "-W" + number, FromDecimal(digits)))
  {
    var week := year + "-W" + number;
    var name := PREFIX + week + (BOUND + digits);
    WeekIsCode(year, number);
    NumberReadsBack(week, digits);
    assert "network-weekly-report-" + year + "-W" + number + (".docx.candidate." + digits) == name;
    assert name[|name| - 1] == digits[|digits| - 1];
    DigitsDoNotBreakLines(name);
    assert Chomped(name + "\n") == name == Chomped(name);
  }

  lemma WeekIsCode(year: string, number: string)
    requires |year| == 4 && AllDigits(year) && |number| == 2 && AllDigits(number)
    ensures IsWeekCode(year + "-W" + number)
  {
    var week := year + "-W" + number;
    assert week[..4] == year && week[4..6] == "-W" && week[6..] == number;
  }

  lemma WeekHasForm(s: string, tail: string)
    requires HasWeek(Chomped(s)) && Chomped(s)[30..] == tail
    ensures exists year, number :: HasForm(s, year, number, tail)
  {
    var t := Chomped(s);
    var week := t[22..30];
    assert t == t[..22] + week + t[30..];
    assert week == week[..4] + "-W" + week[6..];
    assert t == "network-weekly-report-" + week[..4] + "-W" + week[6..] + tail;
    assert s == t || s == t + "\n";
    assert HasForm(s, week[..4], week[6..], tail);
  }

  // Nothing else is.
  lemma CandidateHasForm(s: string)
    requires ParseCandidateName(s).Some?
    ensures exists year, number, digits ::
              HasForm(s, year, number, ".docx.candidate." + digits) && digits != "" && AllDigits(digits)
  {
    var t := Chomped(s);
    assert t[30..] == ".docx.candidate." + t[46..];
    WeekHasForm(s, ".docx.candidate." + t[46..]);
  }

  // A candidate's name without the job's number, and nothing else, is an unbound one.
  lemma UnboundForm(s: string)
    ensures IsUnboundCandidateName(s) <==> exists year, number :: HasForm(s, year, number, ".docx.candidate")
  {
    if IsUnboundCandidateName(s) {
      WeekHasForm(s, ".docx.candidate");
    }
    forall year, number | HasForm(s, year, number, ".docx.candidate")
      ensures IsUnboundCandidateName(s)
    {
      var week := year + "-W" + number;
      var name := PREFIX + week + UNBOUND;
      WeekIsCode(year, number);
      Sliced(week, UNBOUND);
      assert "network-weekly-report-" + year + "-W" + number + ".docx.candidate" == name;
      assert Chomped(name + "\n") == name == Chomped(name);
    }
  }

  // A job is bound by one spelling only among the names the system writes.
  lemma CandidateNamesAreInjective(week: string, id: nat, week': string, id': nat)
    requires IsWeekCode(week) && IsWeekCode(week')
    requires CandidateFileName(week, id) == CandidateFileName(week', id')
    ensures week == week' && id == id'
  {
    CandidateReadsBack(week, id);
    CandidateReadsBack(week', id');
  }

  // ---- the converse, exactly ------------------------------------------------------------

  // Reading is not injective: any other numeral for the same job reads as the same job.
  lemma OtherSpelling(week: string, digits: string)
    requires IsWeekCode(week) && digits != "" && AllDigits(digits) && digits != ToDecimal(FromDecimal(digits))
    ensures var name, id := PREFIX + week + (BOUND + digits), FromDecimal(digits);
            && name != CandidateFileName(week, id)
            && ParseCandidateName(name) == ParseCandidateName(CandidateFileName(week, id))
  {
    var id := FromDecimal(digits);
    NumberReadsBack(week, digits);
    CandidateReadsBack(week, id);
    CandidateShape(week, id);
    Sliced(week, BOUND + digits);
    Sliced(week, BOUND + ToDecimal(id));
    assert (BOUND + digits)[16..] == digits && (BOUND + ToDecimal(id))[16..] == ToDecimal(id);
  }

  // For job 7 a leading zero is one such numeral, a digit of another script is another.
  lemma ThreeSpellingsOfOneJob(week: string)
    requires IsWeekCode(week)
    ensures ParseCandidateName(CandidateFileName(week, 7)) == Some((week, 7))
    ensures ParseCandidateName(PREFIX + week + (BOUND + "07")) == Some((week, 7))
    ensures ParseCandidateName(PREFIX + week + (BOUND + "\U{667}")) == Some((week, 7))
    ensures PREFIX + week + (BOUND + "07") != CandidateFileName(week, 7)
    ensures PREFIX + week + (BOUND + "\U{667}") != CandidateFileName(week, 7)
  {
    Sevens();
    CandidateReadsBack(week, 7);
    OtherSpelling(week, "07");
    OtherSpelling(week, "\U{667}");
  }

  lemma Sevens()
    ensures AllDigits("07") && FromDecimal("07") == 7 && ToDecimal(7) == "7"
    ensures AllDigits("\U{667}") && FromDecimal("\U{667}") == 7
  {
    assert "07"[..1] == "0";
    assert FromDecimal("07") == FromDecimal("0") * 10 + 7;
    assert '\U{667}' as int == 0x667 && OTHER_ZEROS[0] == 0x660;
    assert DigitIn(OTHER_ZEROS, 0x667) == Some(7);
    assert DecimalValue('\U{667}') == Some(7);
    assert FromDecimal("\U{667}"[..0]) == 0;
  }

  // A name that parses is the one the system writes for that job exactly when it has no final
  // newline, and its number is written in ASCII digits without a superfluous zero.
  lemma ParsedIsWritten(s: string)
    requires ParseCandidateName(s).Some?
    ensures var (week, id) := ParseCandidateName(s).value;
            s == CandidateFileName(week, id) <==> s[|s| - 1] != '\n' && Canonical(s[46..])
  {
    var t := Chomped(s);
    var (week, id) := ParseCandidateName(s).value;
    CandidateShape(week, id);
    Sliced(week, BOUND + ToDecimal(id));
    DecimalRoundTrip(id);
    var name := CandidateFileName(week, id);
    assert name[46..] == (BOUND + ToDecimal(id))[16..] == ToDecimal(id);
    if s[|s| - 1] != '\n' && Canonical(s[46..]) {
      NumeralRoundTrip(s[46..]);
      assert s == s[..22] + s[22..30] + (s[30..46] + s[46..]);
    }
    if s == name {
      assert IsDigit(name[|name| - 1]) by { assert name[|name| - 1] == name[46..][|name| - 47]; }
    }
  }

  // ---- what the protocol's names stand for --------------------------------------------------

  ghost function Spelled(name: ReportProtocol.Name): string {
    match name
    case CurrentName(week) => ReportFileName(week)
    case CandidateName(week, id) => CandidateFileName(week, id)
    case UnboundName(week) => UnboundFileName(week)
    case OtherName(text) => text
  }

  ghost function Meaning(s: string): ReportProtocol.Name {
    if ParseCandidateName(s).Some? then
      ReportProtocol.CandidateName(ParseCandidateName(s).value.0, ParseCandidateName(s).value.1)
    else if IsUnboundCandidateName(s) then ReportProtocol.UnboundName(s[22..30])
    else if HasWeek(s) && s[30..] == CURRENT_SUFFIX then ReportProtocol.CurrentName(s[22..30])
    else ReportProtocol.OtherName(s)
  }

  lemma CurrentReadsBack(week: string)
    requires IsWeekCode(week)
    ensures Meaning(ReportFileName(week)) == ReportProtocol.CurrentName(week)
  {
    NamesAreDisjoint(week, 0, week);
    Sliced(week, CURRENT_SUFFIX);
  }

  lemma UnboundReadsBack(week: string)
    requires IsWeekCode(week)
    ensures Meaning(UnboundFileName(week)) == ReportProtocol.UnboundName(week)
  {
    NamesAreDisjoint(week, 0, week);
    assert UnboundFileName(week) == PREFIX + week + UNBOUND by {
      assert CURRENT_SUFFIX + CANDIDATE_SUFFIX == UNBOUND;
    }
    assert UnboundFileName(week)[22..30] == week by {
      Sliced(week, UNBOUND);
    }
  }

  // Every name the protocol writes is read back as itself.
  lemma SpelledMeansItself(name: ReportProtocol.Name)
    requires name.OtherName? || IsWeekCode(name.week)
    requires name.OtherName? ==> Meaning(name.text).OtherName?
    ensures Meaning(Spelled(name)) == name
  {
    match name
    case CurrentName(week) => CurrentReadsBack(week);
    case CandidateName(week, id) => CandidateReadsBack(week, id);
    case UnboundName(week) => UnboundReadsBack(week);
    case OtherName(_) =>
  }

  // ---- the directory behind the protocol's ----------------------------------------------------

  // Names that the protocol writes, or leaves alone.
  ghost predicate Written(name: ReportProtocol.Name) {
    if name.OtherName? then Meaning(name.text).OtherName? else IsWeekCode(name.week)
  }

  lemma MeaningIsWritten(s: string)
    ensures Written(Meaning(s))
  {
    if ParseCandidateName(s).None? && IsUnboundCandidateName(s) {
      assert s[22..30] == Chomped(s)[22..30];
    }
  }

  ghost predicate WellSpelled(s: string) {
    Spelled(Meaning(s)) == s
  }

  // A file is spelled the way the system spells what it means exactly if no candidate's name
  // ends in a newline and its job's number is in ASCII digits without a superfluous zero.
  lemma WellSpelledMeans(s: string)
    ensures Meaning(s).CandidateName? ==> (WellSpelled(s) <==> s[|s| - 1] != '\n' && Canonical(s[46..]))
    ensures Meaning(s).UnboundName? ==> (WellSpelled(s) <==> s[|s| - 1] != '\n')
    ensures Meaning(s).CurrentName? || Meaning(s).OtherName? ==> WellSpelled(s)
  {
    if ParseCandidateName(s).Some? {
      ParsedIsWritten(s);
    } else if IsUnboundCandidateName(s) {
      var week := s[22..30];
      assert UnboundFileName(week) == PREFIX + week + UNBOUND by {
        assert CURRENT_SUFFIX + CANDIDATE_SUFFIX == UNBOUND;
      }
      Sliced(week, UNBOUND);
      assert Chomped(s) == PREFIX + week + UNBOUND;
    } else if HasWeek(s) && s[30..] == CURRENT_SUFFIX {
      assert s == PREFIX + s[22..30] + CURRENT_SUFFIX;
    }
  }

  // Any other spelling stands beside the system's own one: two files for one name.
  lemma MisspelledIsSecond(s: string)
    requires !WellSpelled(s)
    ensures Spelled(Meaning(s)) != s && Meaning(Spelled(Meaning(s))) == Meaning(s)
  {
    MeaningIsWritten(s);
    SpelledMeansItself(Meaning(s));
  }

  type FileSystem = map<string, ReportProtocol.Bytes>

  ghost predicate AllWellSpelled(dir: FileSystem) {
    forall s :: s in dir ==> WellSpelled(s)
  }

  // What the protocol sees of a directory all of whose files are well spelled.
  ghost function Seen(dir: FileSystem): ReportProtocol.Directory
    requires AllWellSpelled(dir)
  {
    map s | s in dir :: Meaning(s) := dir[s]
  }

  ghost function Stored<K, V>(m: map<K, V>, key: K): Option<V> {
    if key in m then Some(m[key]) else None
  }

  // No file is lost in that view, and none appears in it.
  lemma SeenExactly(dir: FileSystem, name: ReportProtocol.Name)
    requires AllWellSpelled(dir)
    ensures Stored(Seen(dir), name) == if Written(name) then Stored(dir, Spelled(name)) else None
  {
    if name in Seen(dir) {
      var s :| s in dir && Meaning(s) == name;
      MeaningIsWritten(s);
    } else if Written(name) && Spelled(name) in dir {
      SpelledMeansItself(name);
    }
  }

  lemma SpelledApart(a: ReportProtocol.Name, b: ReportProtocol.Name)
    requires Written(a) && Written(b) && a != b
    ensures Spelled(a) != Spelled(b)
  {
    SpelledMeansItself(a);
    SpelledMeansItself(b);
  }

  lemma SameStored<K, V>(a: map<K, V>, b: map<K, V>)
    requires forall key {:trigger Stored(a, key)} {:trigger Stored(b, key)} :: Stored(a, key) == Stored(b, key)
    ensures a == b
  {
    forall key
      ensures key in a <==> key in b
      ensures key in a ==> b[key] == a[key]
    {
      assert Stored(a, key) == Stored(b, key);
    }
  }

  lemma StoredWithout<K, V>(m: map<K, V>, key: K, k: K)
    ensures Stored(m - {key}, k) == if k == key then None else Stored(m, k)
  {
  }

  // The view changes under a name as the directory does under its spelling.
  lemma SeenChange(dir: FileSystem, next: FileSystem, name: ReportProtocol.Name, n: ReportProtocol.Name)
    requires AllWellSpelled(dir) && AllWellSpelled(next) && Written(name)
    requires forall s :: s != Spelled(name) ==> Stored(next, s) == Stored(dir, s)
    ensures Stored(Seen(next), n) == if n == name then Stored(next, Spelled(name)) else Stored(Seen(dir), n)
  {
    SeenExactly(dir, n);
    SeenExactly(next, n);
    if n != name && Written(n) {
      SpelledApart(n, name);
    }
  }

  // Writing, removing and renaming files under the names the system spells is what the
  // protocol's operations say, and leaves a well-spelled directory well spelled.
  lemma WriteIsSeen(dir: FileSystem, name: ReportProtocol.Name, bytes: ReportProtocol.Bytes)
    requires AllWellSpelled(dir) && Written(name)
    ensures AllWellSpelled(dir[Spelled(name) := bytes])
    ensures Seen(dir[Spelled(name) := bytes]) == Seen(dir)[name := bytes]
  {
    var next := dir[Spelled(name) := bytes];
    SpelledMeansItself(name);
    assert WellSpelled(Spelled(name));
    forall n
      ensures Stored(Seen(next), n) == Stored(Seen(dir)[name := bytes], n)
    {
      SeenChange(dir, next, name, n);
    }
    SameStored(Seen(next), Seen(dir)[name := bytes]);
  }

  lemma UnlinkIsSeen(dir: FileSystem, name: ReportProtocol.Name)
    requires AllWellSpelled(dir) && Written(name)
    ensures AllWellSpelled(dir - {Spelled(name)})
    ensures Seen(dir - {Spelled(name)}) == ReportProtocol.Unlink(Seen(dir), name)
  {
    var next := dir - {Spelled(name)};
    forall s
      ensures Stored(next, s) == if s == Spelled(name) then None else Stored(dir, s)
    {
      StoredWithout(dir, Spelled(name), s);
    }
    forall n
      ensures Stored(Seen(next), n) == Stored(ReportProtocol.Unlink(Seen(dir), name), n)
    {
      SeenChange(dir, next, name, n);
      StoredWithout(Seen(dir), name, n);
    }
    SameStored(Seen(next), ReportProtocol.Unlink(Seen(dir), name));
  }

  lemma ReplaceIsSeen(dir: FileSystem, source: ReportProtocol.Name, target: ReportProtocol.Name)
    requires AllWellSpelled(dir) && Written(source) && Written(target)
    ensures source in Seen(dir) <==> Spelled(source) in dir
    ensures source in Seen(dir) ==>
              var next := (dir - {Spelled(source)})[Spelled(target) := dir[Spelled(source)]];
              AllWellSpelled(next) && Seen(next) == ReportProtocol.Replace(Seen(dir), source, target)
  {
    SeenExactly(dir, source);
    if Spelled(source) in dir {
      UnlinkIsSeen(dir, source);
      WriteIsSeen(dir - {Spelled(source)}, target, dir[Spelled(source)]);
    }
  }

  ghost function EmptyTables(files: ReportProtocol.Directory): ReportProtocol.State {
    ReportProtocol.State(
      ReportProtocol.Database(map[], map[]), files, ReportProtocol.Idle,
      ReportProtocol.History(map[], map[], map[], map[]))
  }

  // Among the well-spelled directories a run may start from exactly those that hold no
  // current document.
  lemma MayStartFrom(dir: FileSystem)
    requires AllWellSpelled(dir)
    ensures ReportProtocol.Initial(EmptyTables(Seen(dir)))
       <==> (forall week :: IsWeekCode(week) ==> ReportFileName(week) !in dir)
  {
    forall week
      ensures ReportProtocol.CurrentName(week) in Seen(dir) <==> IsWeekCode(week) && ReportFileName(week) in dir
    {
      SeenExactly(dir, ReportProtocol.CurrentName(week));
    }
    if forall week :: IsWeekCode(week) ==> ReportFileName(week) !in dir {
      assert forall week :: ReportProtocol.CurrentName(week) !in Seen(dir);
    }
  }
}
