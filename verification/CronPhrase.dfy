/**
  The printer of cron expressions (internal/web/cron_human.go) against the meaning
  of a five-field expression given by the crontab utility, INPUT FILES, of
  IEEE Std 1003.1-2017: fields are `*` or comma lists of numbers and ranges, the
  weekday running from 0 to 6.
  */
module CronPhrase {
  import opened Wrappers
  import opened Splitting
  import opened Text

  // ---------- The printer ----------

  /** A short phrase for a common pattern, and otherwise the expression itself, trimmed. */
  function HumanizeCron(expr: string): string {
    var trimmed := TrimSpace(expr);
    if trimmed == "" then ""
    else
      var fields := Fields(trimmed);
      if |fields| != 5 then trimmed
      else
        match HumanClock(fields[0], fields[1])
        case None => trimmed
        case Some(clock) =>
          match HumanDay(fields[2], fields[3], fields[4])
          case None => trimmed
          case Some(day) => if day == "" then clock else day + " " + clock
  }

  function HumanClock(minute: string, hour: string): Option<string> {
    match Atoi(minute)
    case None => None
    case Some(m) =>
      if m < 0 || m > 59 then None
      else
        match Atoi(hour)
        case None => None
        case Some(h) => if h < 0 || h > 23 then None else Some(Pad2(h) + ":" + Pad2(m))
  }

  function HumanDay(dom: string, month: string, dow: string): Option<string> {
    if month != "*" then None
    else if dom == "*" && dow == "*" then Some("Daily")
    else if dom == "*" then HumanWeekday(dow)
    else if dow == "*" then
      match Atoi(dom)
      case None => None
      case Some(d) => if 1 <= d <= 31 then Some("Monthly day " + Itoa(d)) else None
    else None
  }

  function DayName(d: int): (name: string)
    requires 0 <= d < 7
    ensures |name| == 3 && (name[0] == 'S' || name[0] == 'M' || name[0] == 'T' || name[0] == 'W' || name[0] == 'F')
  {
    ["Sun", "Mon", "Tue", "Wed", "Thu", "Fri", "Sat"][d]
  }

  function HumanWeekday(dow: string): Option<string> {
    if dow == "1-5" then Some("Weekdays")
    else if dow == "0,6" || dow == "6,0" || dow == "0,7" || dow == "6,7" then Some("Weekends")
    else
      match ParseDowRange(dow)
      case Some((a, b)) => Some(DayName(a) + "\U{2013}" + DayName(b))
      case None =>
        match ParseDow(dow)
        case Some(d) => Some(DayName(d) + "s")
        case None =>
          var parts := Split(dow, ',');
          if 2 <= |parts| <= 4 then
            match NamesOf(parts)
            case None => None
            case Some(names) => Some(Join(names, ", "))
          else None
  }

  /** The names of a list of weekdays, unless one of them is not a weekday. */
  function NamesOf(parts: seq<string>): (names: Option<seq<string>>)
    ensures names.Some? ==> |names.value| == |parts|
  {
    if parts == [] then Some([])
    else
      match ParseDow(parts[0])
      case None => None
      case Some(d) =>
        match NamesOf(parts[1..])
        case None => None
        case Some(rest) => Some([DayName(d)] + rest)
  }

  function ParseDow(s: string): (day: Option<int>)
    ensures day.Some? ==> 0 <= day.value < 7
  {
    match Atoi(TrimSpace(s))
    case None => None
    case Some(d) => if d < 0 || d > 7 then None else if d == 7 then Some(0) else Some(d)
  }

  function ParseDowRange(s: string): (range: Option<(int, int)>)
    ensures range.Some? ==> 0 <= range.value.0 < range.value.1 < 7
  {
    var parts := Split(s, '-');
    if |parts| != 2 then None
    else
      match (ParseDow(parts[0]), ParseDow(parts[1]))
      case (Some(a), Some(b)) => if a >= b then None else Some((a, b))
      case _ => None
  }

  // ---------- What an expression denotes ----------

  datatype Moment = Moment(minute: int, hour: int, day: int, month: int, weekday: int)

  predicate OnCalendar(m: Moment) {
    0 <= m.minute <= 59 && 0 <= m.hour <= 23 && 1 <= m.day <= 31 && 1 <= m.month <= 12 && 0 <= m.weekday <= 6
  }

  /** A list element: a number, or two numbers separated by a hyphen. */
  function Element(e: string): Option<(nat, nat)> {
    if IsNumber(e) then Some((Value(e), Value(e)))
    else
      var ends := Split(e, '-');
      if |ends| == 2 && IsNumber(ends[0]) && IsNumber(ends[1]) then Some((Value(ends[0]), Value(ends[1]))) else None
  }

  predicate ValidElement(e: string, lo: int, hi: int) {
    Element(e).Some? && lo <= Element(e).value.0 <= Element(e).value.1 <= hi
  }

  predicate ElementMatches(e: string, v: int) {
    Element(e).Some? && Element(e).value.0 <= v <= Element(e).value.1
  }

  predicate ValidField(f: string, lo: int, hi: int) {
    f == "*" || forall k :: 0 <= k < |Split(f, ',')| ==> ValidElement(Split(f, ',')[k], lo, hi)
  }

  predicate ListMatches(parts: seq<string>, v: int) {
    exists k :: 0 <= k < |parts| && ElementMatches(parts[k], v)
  }

  predicate FieldMatches(f: string, v: int) {
    f == "*" || ListMatches(Split(f, ','), v)
  }

  predicate Valid(f: seq<string>) {
    && |f| == 5
    && ValidField(f[0], 0, 59) && ValidField(f[1], 0, 23)
    && ValidField(f[2], 1, 31) && ValidField(f[3], 1, 12) && ValidField(f[4], 0, 6)
  }

  /**
    The days: with no weekday given those of the date fields, with no date given
    those of the weekday field, and with both given the days either of them names.
    */
  predicate DayMatches(dom: string, month: string, dow: string, m: Moment) {
    var onDate := FieldMatches(dom, m.day) && FieldMatches(month, m.month);
    if dow == "*" then onDate
    else if dom == "*" && month == "*" then FieldMatches(dow, m.weekday)
    else onDate || FieldMatches(dow, m.weekday)
  }

  ghost function Denoted(f: seq<string>): iset<Moment>
    requires |f| == 5
  {
    iset m: Moment |
      OnCalendar(m) && FieldMatches(f[0], m.minute) && FieldMatches(f[1], m.hour) && DayMatches(f[2], f[3], f[4], m)
  }

  // ---------- Reading a phrase back ----------

  datatype Days = EveryDay | OnWeekdays(weekdays: set<int>) | OnDayOfMonth(day: int)

  datatype Rule = Rule(days: Days, hour: int, minute: int)

  predicate OnDays(days: Days, m: Moment) {
    match days
    case EveryDay => true
    case OnWeekdays(weekdays) => m.weekday in weekdays
    case OnDayOfMonth(day) => m.day == day
  }

  ghost function Meaning(r: Rule): iset<Moment> {
    iset m: Moment | OnCalendar(m) && m.minute == r.minute && m.hour == r.hour && OnDays(r.days, m)
  }

  const WEEK: set<int> := {0, 1, 2, 3, 4, 5, 6}

  function DayIndex(name: string): Option<int> {
    if name == "Sun" then Some(0) else if name == "Mon" then Some(1) else if name == "Tue" then Some(2)
    else if name == "Wed" then Some(3) else if name == "Thu" then Some(4) else if name == "Fri" then Some(5)
    else if name == "Sat" then Some(6) else None
  }

  /** A list of day names, as a set of weekdays. */
  function ReadNames(s: string): Option<set<int>> {
    if |s| < 3 || DayIndex(s[..3]).None? then None
    else if |s| == 3 then Some({DayIndex(s).value})
    else if |s| < 5 || s[3..5] != ", " then None
    else
      match ReadNames(s[5..])
      case None => None
      case Some(rest) => Some({DayIndex(s[..3]).value} + rest)
  }

  function ReadDays(s: string): Option<Days> {
    if s == "Daily" then Some(EveryDay)
    else if s == "Weekdays" then Some(OnWeekdays({1, 2, 3, 4, 5}))
    else if s == "Weekends" then Some(OnWeekdays({0, 6}))
    else if |s| > 12 && s[..12] == "Monthly day " then
      match Atoi(s[12..])
      case None => None
      case Some(d) => Some(OnDayOfMonth(d))
    else if |s| == 7 && s[3] == '\U{2013}' then
      match (DayIndex(s[..3]), DayIndex(s[4..]))
      case (Some(a), Some(b)) => Some(OnWeekdays(set d | d in WEEK && a <= d <= b))
      case _ => None
    else if |s| == 4 && s[3] == 's' then
      match DayIndex(s[..3])
      case None => None
      case Some(d) => Some(OnWeekdays({d}))
    else
      match ReadNames(s)
      case None => None
      case Some(weekdays) => Some(OnWeekdays(weekdays))
  }

  function ReadPhrase(s: string): Option<Rule> {
    if |s| < 6 then None
    else
      var n := |s| - 6;
      var clock := s[n + 1..];
      if s[n] != ' ' || clock[2] != ':' || !IsNumber(clock[..2]) || !IsNumber(clock[3..]) then None
      else
        match ReadDays(s[..n])
        case None => None
        case Some(days) => Some(Rule(days, Value(clock[..2]), Value(clock[3..])))
  }

  // ---------- Fields ----------

  lemma TwoEnds(e: string)
    requires |Split(e, '-')| == 2
    ensures e == Split(e, '-')[0] + "-" + Split(e, '-')[1]
  {
    JoiningPieces(e, '-');
    assert Joined(Split(e, '-')[1..], '-') == Split(e, '-')[1];
  }

  /** Digits at both ends, and digits and hyphens between them. */
  predicate Compact(e: string) {
    e != "" && IsDigit(e[0]) && IsDigit(e[|e| - 1]) && forall k :: 0 <= k < |e| ==> IsDigit(e[k]) || e[k] == '-'
  }

  lemma RangeIsCompact(a: string, b: string)
    requires IsNumber(a) && IsNumber(b)
    ensures Compact(a + "-" + b)
  {
  }

  lemma ElementChars(e: string)
    requires Element(e).Some?
    ensures Compact(e) && Free(e, ',') && TrimSpace(e) == e
    ensures !IsNumber(e) ==> e == Split(e, '-')[0] + "-" + Split(e, '-')[1]
  {
    hide Split, Value, TrimSpace;
    if !IsNumber(e) {
      TwoEnds(e);
      RangeIsCompact(Split(e, '-')[0], Split(e, '-')[1]);
    }
    AlreadyTrimmed(e);
  }

  lemma Whole(f: string)
    requires Free(f, ',')
    ensures Split(f, ',') == [f]
  {
    assert f[..|f|] == f;
    IndexOfAt(f, ',', |f|);
  }

  /** A single element as a field. */
  lemma SingleElement(f: string, lo: int, hi: int)
    requires Element(f).Some?
    ensures f != "*" && Split(f, ',') == [f]
    ensures ValidField(f, lo, hi) <==> ValidElement(f, lo, hi)
    ensures forall v :: FieldMatches(f, v) <==> ElementMatches(f, v)
  {
    ElementChars(f);
    Whole(f);
    assert Split(f, ',')[0] == f;
  }

  /** A valid field starts with a digit or is the asterisk. */
  lemma ValidStart(f: string, lo: int, hi: int)
    requires ValidField(f, lo, hi) && f != "*"
    ensures f != "" && IsDigit(f[0])
  {
    var first := Split(f, ',')[0];
    assert ValidElement(first, lo, hi);
    ElementChars(first);
    assert f[0] == first[0];
  }

  lemma {:induction false} JoinedCompactly(parts: seq<string>)
    requires |parts| > 0 && forall k :: 0 <= k < |parts| ==> Compact(parts[k])
    ensures IsWord(Joined(parts, ','))
  {
    if |parts| > 1 { JoinedCompactly(parts[1..]); }
  }

  /** A valid field is one word. */
  lemma ValidFieldIsWord(f: string, lo: int, hi: int)
    requires ValidField(f, lo, hi)
    ensures IsWord(f)
  {
    if f != "*" {
      var parts := Split(f, ',');
      forall k | 0 <= k < |parts| ensures Compact(parts[k]) {
        assert ValidElement(parts[k], lo, hi);
        ElementChars(parts[k]);
      }
      JoiningPieces(f, ',');
      JoinedCompactly(parts);
    }
  }

  /** Of the valid fields Atoi reads the plain numbers, and reads them as themselves. */
  lemma PlainNumber(f: string, lo: int, hi: int)
    requires ValidField(f, lo, hi)
    ensures Atoi(f).Some? <==> IsNumber(f)
    ensures IsNumber(f) ==> Atoi(f) == Some(Value(f)) && lo <= Value(f) <= hi && f != "*"
    ensures IsNumber(f) ==> forall v :: FieldMatches(f, v) <==> v == Value(f)
  {
    if f != "*" { ValidStart(f, lo, hi); }
    if IsNumber(f) { SingleElement(f, lo, hi); }
  }

  lemma WeekdayElement(e: string)
    requires ValidElement(e, 0, 6)
    ensures ParseDow(e).Some? <==> IsNumber(e)
    ensures IsNumber(e) ==> ParseDow(e) == Some(Value(e))
    ensures IsNumber(e) ==> forall v :: ElementMatches(e, v) <==> v == Value(e)
  {
    ElementChars(e);
  }

  // ---------- Weekdays ----------

  predicate IsRange(f: string) {
    Element(f).Some? && Element(f).value.0 < Element(f).value.1
  }

  lemma NoCommaInside(part: string)
    requires ParseDow(part).Some?
    ensures Free(part, ',')
  {
    if ',' in part { TrimmingDropsSpaces(part, ','); }
  }

  lemma RangeParts(dow: string)
    requires ParseDowRange(dow).Some?
    ensures Free(dow, ',')
    ensures |Split(dow, '-')| == 2 && dow == Split(dow, '-')[0] + "-" + Split(dow, '-')[1]
    ensures !IsNumber(dow)
  {
    var ends := Split(dow, '-');
    TwoEnds(dow);
    assert dow[|ends[0]|] == '-';
    NoCommaInside(ends[0]);
    NoCommaInside(ends[1]);
  }

  lemma RangeEnds(dow: string)
    requires ValidElement(dow, 0, 6) && !IsNumber(dow)
    ensures ParseDowRange(dow) == if IsRange(dow) then Some(Element(dow).value) else None
  {
    var ends := Split(dow, '-');
    assert Element(ends[0]) == Some((Value(ends[0]), Value(ends[0])));
    assert Element(ends[1]) == Some((Value(ends[1]), Value(ends[1])));
    WeekdayElement(ends[0]);
    WeekdayElement(ends[1]);
  }

  /** Of the valid weekday fields ParseDowRange reads the ascending ranges. */
  lemma WeekdayRange(dow: string)
    requires ValidField(dow, 0, 6)
    ensures ParseDowRange(dow).Some? <==> dow != "*" && IsRange(dow)
    ensures ParseDowRange(dow).Some? ==> ParseDowRange(dow).value == Element(dow).value
  {
    if ParseDowRange(dow).Some? {
      RangeParts(dow);
      Whole(dow);
      assert dow != "*";
      assert ValidElement(Split(dow, ',')[0], 0, 6);
      RangeEnds(dow);
    } else if dow != "*" && IsRange(dow) {
      SingleElement(dow, 0, 6);
      RangeEnds(dow);
    }
  }

  lemma NameOf(d: int)
    requires 0 <= d < 7
    ensures DayIndex(DayName(d)) == Some(d)
  {
  }

  lemma ListMatchesFirst(parts: seq<string>, v: int)
    requires parts != []
    ensures ListMatches(parts, v) <==> ElementMatches(parts[0], v) || ListMatches(parts[1..], v)
  {
    if k :| 0 <= k < |parts[1..]| && ElementMatches(parts[1..][k], v) { assert ElementMatches(parts[k + 1], v); }
    if k :| 0 < k < |parts| && ElementMatches(parts[k], v) { assert ElementMatches(parts[1..][k - 1], v); }
  }

  lemma FirstName(d: int, tail: string)
    requires 0 <= d < 7
    ensures ReadNames(DayName(d)) == Some({d})
    ensures ReadNames(tail).Some? ==> ReadNames(DayName(d) + ", " + tail) == Some({d} + ReadNames(tail).value)
  {
    NameOf(d);
    hide DayIndex, DayName;
    assert DayName(d)[..3] == DayName(d);
    var text := DayName(d) + ", " + tail;
    assert text[..3] == DayName(d) && text[3..5] == ", " && text[5..] == tail;
  }

  /** The names printed for a list read back as the listed weekdays. */
  lemma {:induction false} ListReadsBack(parts: seq<string>) returns (weekdays: set<int>)
    requires parts != [] && NamesOf(parts).Some?
    requires forall k :: 0 <= k < |parts| ==> ValidElement(parts[k], 0, 6)
    ensures ReadNames(Join(NamesOf(parts).value, ", ")) == Some(weekdays)
    ensures forall v :: v in weekdays <==> ListMatches(parts, v)
  {
    hide ReadNames, DayName, ListMatches, ElementMatches, Element, ParseDow, IsNumber;
    var d := ParseDow(parts[0]).value;
    var rest := parts[1..];
    WeekdayElement(parts[0]);
    if |parts| == 1 {
      FirstName(d, "");
      weekdays := {d};
      NothingListed();
    } else {
      var those := ListReadsBack(rest);
      weekdays := {d} + those;
      assert NamesOf(parts).value[1..] == NamesOf(rest).value;
      FirstName(d, Join(NamesOf(rest).value, ", "));
    }
    forall v ensures v in weekdays <==> ListMatches(parts, v) {
      ListMatchesFirst(parts, v);
    }
  }

  lemma NothingListed()
    ensures forall v :: !ListMatches([], v)
  {
  }

  /** The weekday fields that have a phrase: an ascending range, or up to four numbers. */
  predicate PlainWeekdays(dow: string) {
    IsRange(dow) || (|Split(dow, ',')| <= 4 && forall k :: 0 <= k < |Split(dow, ',')| ==> IsNumber(Split(dow, ',')[k]))
  }

  lemma OneDigit(c: char)
    requires IsDigit(c)
    ensures IsNumber([c]) && Value([c]) == c as int - '0' as int
  {
    assert [c][..0] == "";
  }

  /** A pair of digits about a separator. */
  lemma TwoDigits(s: string, sep: char)
    requires |s| == 3 && s[1] == sep && IsDigit(s[0]) && IsDigit(s[2]) && !IsDigit(sep)
    ensures Split(s, sep) == [[s[0]], [s[2]]]
    ensures !IsNumber(s)
    ensures IsNumber([s[0]]) && Value([s[0]]) == s[0] as int - '0' as int
    ensures IsNumber([s[2]]) && Value([s[2]]) == s[2] as int - '0' as int
  {
    OneDigit(s[0]);
    OneDigit(s[2]);
    var pieces := [[s[0]], [s[2]]];
    OnlyPieces(pieces, sep);
    assert Joined(pieces[1..], sep) == [s[2]];
    assert Joined(pieces, sep) == s;
    assert !IsDigit(s[1]);
  }

  lemma WorkingWeek(dow: string)
    requires dow == "1-5"
    ensures Element(dow) == Some((1, 5))
  {
    TwoDigits(dow, '-');
  }

  lemma DigitList(dow: string)
    requires |dow| == 3 && dow[1] == ',' && IsDigit(dow[0]) && IsDigit(dow[2])
    ensures Split(dow, ',') == [[dow[0]], [dow[2]]]
    ensures IsNumber(Split(dow, ',')[0]) && IsNumber(Split(dow, ',')[1])
    ensures dow[2] == '7' ==> !ValidField(dow, 0, 6)
    ensures forall v :: FieldMatches(dow, v) <==> v == dow[0] as int - '0' as int || v == dow[2] as int - '0' as int
  {
    TwoDigits(dow, ',');
    var parts := Split(dow, ',');
    if dow[2] == '7' { assert !ValidElement(parts[1], 0, 6); }
    hide Split, Value, IsNumber;
    forall v ensures ListMatches(parts, v) <==> ElementMatches(parts[0], v) || ElementMatches(parts[1], v) {
      ListMatchesFirst(parts, v);
      ListMatchesFirst(parts[1..], v);
      NothingListed();
      assert parts[1..][1..] == [];
    }
  }

  lemma ShorthandReadsBack(dow: string) returns (weekdays: set<int>)
    requires ValidField(dow, 0, 6)
    requires dow == "1-5" || dow == "0,6" || dow == "6,0" || dow == "0,7" || dow == "6,7"
    ensures ReadDays(HumanWeekday(dow).value) == Some(OnWeekdays(weekdays))
    ensures forall v :: v in weekdays <==> FieldMatches(dow, v)
    ensures PlainWeekdays(dow)
  {
    hide Split, Element, Value, IsNumber, ValidField, FieldMatches;
    if dow == "1-5" {
      weekdays := {1, 2, 3, 4, 5};
      WorkingWeek(dow);
      SingleElement(dow, 0, 6);
    } else {
      weekdays := {0, 6};
      DigitList(dow);
    }
  }

  lemma RangePhrase(a: int, b: int)
    requires 0 <= a < b < 7
    ensures ReadDays(DayName(a) + "\U{2013}" + DayName(b)) == Some(OnWeekdays(set d | d in WEEK && a <= d <= b))
  {
    NameOf(a);
    NameOf(b);
    hide DayIndex, DayName;
    var s := DayName(a) + "\U{2013}" + DayName(b);
    assert s[..3] == DayName(a) && s[4..] == DayName(b) && s[3] == '\U{2013}';
  }

  lemma SinglePhrase(d: int)
    requires 0 <= d < 7
    ensures ReadDays(DayName(d) + "s") == Some(OnWeekdays({d}))
  {
    NameOf(d);
    hide DayIndex, DayName;
    assert (DayName(d) + "s")[..3] == DayName(d);
  }

  lemma ListPhrase(names: seq<string>)
    requires |names| >= 2 && |names[0]| == 3 && ReadNames(Join(names, ", ")).Some?
    ensures ReadDays(Join(names, ", ")) == Some(OnWeekdays(ReadNames(Join(names, ", ")).value))
  {
    var s := Join(names, ", ");
    assert s == names[0] + ", " + Join(names[1..], ", ");
    assert s[3] == ',';
    assert |s| > 12 ==> s[..12][3] == ',' && "Monthly day "[3] == 't';
    assert "Weekdays"[3] == 'k' && "Weekends"[3] == 'k' && "Daily"[3] == 'l';
  }

  lemma {:induction false} NamedWhenPlain(parts: seq<string>)
    requires forall k :: 0 <= k < |parts| ==> ValidElement(parts[k], 0, 6)
    ensures NamesOf(parts).Some? <==> forall k :: 0 <= k < |parts| ==> IsNumber(parts[k])
  {
    if parts != [] {
      WeekdayElement(parts[0]);
      NamedWhenPlain(parts[1..]);
      if forall k :: 0 <= k < |parts| ==> IsNumber(parts[k]) {
        assert forall k :: 0 <= k < |parts[1..]| ==> IsNumber(parts[1..][k]);
      }
      if NamesOf(parts).Some? {
        assert forall k :: 0 < k < |parts| ==> parts[k] == parts[1..][k - 1];
      }
    }
  }

  lemma SingleWeekday(dow: string)
    requires ValidField(dow, 0, 6) && dow != "*"
    ensures ParseDow(dow).Some? <==> IsNumber(dow)
  {
    if ParseDow(dow).Some? {
      NoCommaInside(dow);
      Whole(dow);
      assert ValidElement(Split(dow, ',')[0], 0, 6);
      WeekdayElement(dow);
    } else if IsNumber(dow) {
      SingleElement(dow, 0, 6);
      WeekdayElement(dow);
    }
  }

  lemma PartsAreValid(f: string, lo: int, hi: int)
    requires ValidField(f, lo, hi) && f != "*"
    ensures forall k :: 0 <= k < |Split(f, ',')| ==> ValidElement(Split(f, ',')[k], lo, hi)
  {
  }

  lemma OnePart(dow: string)
    requires |Split(dow, ',')| == 1
    ensures Split(dow, ',') == [dow]
  {
    JoiningPieces(dow, ',');
  }

  /** A valid weekday field has a phrase exactly when it is plain. */
  lemma WeekdayPhraseExists(dow: string)
    requires ValidField(dow, 0, 6) && dow != "*"
    ensures HumanWeekday(dow).Some? <==> PlainWeekdays(dow)
  {
    hide Split, Element, Value, IsNumber, NamesOf, ParseDow, ParseDowRange, ValidField, ReadDays, FieldMatches;
    if dow == "1-5" || dow == "0,6" || dow == "6,0" || dow == "0,7" || dow == "6,7" {
      var _ := ShorthandReadsBack(dow);
      return;
    }
    WeekdayRange(dow);
    SingleWeekday(dow);
    PartsAreValid(dow, 0, 6);
    NamedWhenPlain(Split(dow, ','));
    if IsNumber(dow) { SingleElementOfNumber(dow); }
    if |Split(dow, ',')| == 1 {
      OnePart(dow);
      assert Split(dow, ',')[0] == dow;
    }
  }

  lemma SingleElementOfNumber(f: string)
    requires IsNumber(f)
    ensures Split(f, ',') == [f]
  {
    Whole(f);
  }

  /** The phrase of a valid weekday field reads back as the weekdays the field matches. */
  lemma WeekdayReadsBack(dow: string) returns (weekdays: set<int>)
    requires ValidField(dow, 0, 6) && dow != "*" && HumanWeekday(dow).Some?
    ensures ReadDays(HumanWeekday(dow).value) == Some(OnWeekdays(weekdays))
    ensures forall v :: v in WEEK ==> (v in weekdays <==> FieldMatches(dow, v))
  {
    hide Split, Value, IsNumber, ReadDays, ReadNames, Join, DayName;
    if dow == "1-5" || dow == "0,6" || dow == "6,0" || dow == "0,7" || dow == "6,7" {
      weekdays := ShorthandReadsBack(dow);
    } else if ParseDowRange(dow).Some? {
      var (a, b) := ParseDowRange(dow).value;
      WeekdayRange(dow);
      SingleElement(dow, 0, 6);
      RangePhrase(a, b);
      weekdays := set d | d in WEEK && a <= d <= b;
    } else if ParseDow(dow).Some? {
      SingleWeekday(dow);
      PlainNumber(dow, 0, 6);
      SingleElement(dow, 0, 6);
      WeekdayElement(dow);
      SinglePhrase(ParseDow(dow).value);
      weekdays := {ParseDow(dow).value};
    } else {
      weekdays := ListReadsBack(Split(dow, ','));
      ListPhrase(NamesOf(Split(dow, ',')).value);
    }
  }

  // ---------- Whole phrases ----------

  lemma ClockReadsBack(day: string, hour: int, minute: int)
    requires 0 <= hour < 100 && 0 <= minute < 100 && ReadDays(day).Some?
    ensures ReadPhrase(day + " " + (Pad2(hour) + ":" + Pad2(minute))) == Some(Rule(ReadDays(day).value, hour, minute))
  {
    hide ReadDays, IsNumber, Value;
    var clock := Pad2(hour) + ":" + Pad2(minute);
    assert clock[..2] == Pad2(hour) && clock[3..] == Pad2(minute);
    var s := day + " " + clock;
    assert s[..|day|] == day && s[|day| + 1..] == clock;
  }

  lemma MonthDayReadsBack(d: nat)
    ensures ReadDays("Monthly day " + Itoa(d)) == Some(OnDayOfMonth(d))
  {
    var s := "Monthly day " + Itoa(d);
    assert s[..12] == "Monthly day " && s[12..] == Itoa(d);
  }

  /** The phrase of valid date and weekday fields reads back as the days they denote. */
  lemma DaysReadBack(dom: string, month: string, dow: string)
    requires ValidField(dom, 1, 31) && ValidField(month, 1, 12) && ValidField(dow, 0, 6)
    requires HumanDay(dom, month, dow).Some?
    ensures ReadDays(HumanDay(dom, month, dow).value).Some?
    ensures forall m :: OnCalendar(m) ==>
      (OnDays(ReadDays(HumanDay(dom, month, dow).value).value, m) <==> DayMatches(dom, month, dow, m))
  {
    hide Split, Value, IsNumber, ReadNames, ValidField, ListMatches, HumanWeekday;
    if dow != "*" {
      hide ReadDays;
      var weekdays := WeekdayReadsBack(dow);
    } else if dom != "*" {
      hide ReadDays;
      PlainNumber(dom, 1, 31);
      MonthDayReadsBack(Atoi(dom).value);
    }
  }

  /** The phrase when both halves have one, and the trimmed expression otherwise. */
  lemma PhraseOrExpression(expr: string)
    ensures var f := Fields(expr);
      HumanizeCron(expr) ==
        if |f| == 5 && HumanClock(f[0], f[1]).Some? && HumanDay(f[2], f[3], f[4]).Some?
        then HumanDay(f[2], f[3], f[4]).value + " " + HumanClock(f[0], f[1]).value
        else TrimSpace(expr)
  {
    FieldsOfTrimmed(expr);
    hide HumanClock;
    var f := Fields(expr);
    if |f| == 5 && HumanDay(f[2], f[3], f[4]).Some? {
      DayStartsWithLetter(f[2], f[3], f[4]);
    }
  }

  /** No phrase begins as a field or a number does. */
  predicate StartsWithLetter(s: string) {
    s != "" && (s[0] == 'D' || s[0] == 'M' || s[0] == 'W' || s[0] == 'S' || s[0] == 'T' || s[0] == 'F')
  }

  lemma DayStartsWithLetter(dom: string, month: string, dow: string)
    requires HumanDay(dom, month, dow).Some?
    ensures StartsWithLetter(HumanDay(dom, month, dow).value)
  {
    hide Split, Value, IsNumber;
  }

  lemma ClockShape(minute: string, hour: string)
    requires HumanClock(minute, hour).Some?
    ensures |HumanClock(minute, hour).value| == 5 && IsDigit(HumanClock(minute, hour).value[4])
    ensures Atoi(minute).Some? && Atoi(hour).Some? && 0 <= Atoi(minute).value <= 59 && 0 <= Atoi(hour).value <= 23
    ensures HumanClock(minute, hour).value == Pad2(Atoi(hour).value) + ":" + Pad2(Atoi(minute).value)
  {
    hide Value;
  }

  /** A phrase stands as it is when humanized again. */
  lemma PhraseIsFixed(day: string, clock: string)
    requires StartsWithLetter(day) && clock != "" && IsDigit(clock[|clock| - 1])
    ensures HumanizeCron(day + " " + clock) == day + " " + clock
  {
    var s := day + " " + clock;
    AlreadyTrimmed(s);
    TrimmedStart(s);
    PhraseOrExpression(s);
    assert Atoi(Fields(s)[0]).None?;
  }

  /** Humanizing twice is humanizing once, whatever the expression. */
  lemma HumanizingTwice(expr: string)
    ensures HumanizeCron(HumanizeCron(expr)) == HumanizeCron(expr)
  {
    PhraseOrExpression(expr);
    hide HumanizeCron, TrimSpace, HumanClock, HumanDay;
    var f := Fields(expr);
    if |f| == 5 && HumanClock(f[0], f[1]).Some? && HumanDay(f[2], f[3], f[4]).Some? {
      DayStartsWithLetter(f[2], f[3], f[4]);
      ClockShape(f[0], f[1]);
      PhraseIsFixed(HumanDay(f[2], f[3], f[4]).value, HumanClock(f[0], f[1]).value);
    } else {
      TrimmingTwice(expr);
      FieldsOfTrimmed(expr);
      PhraseOrExpression(TrimSpace(expr));
    }
  }

  /** A valid expression is not mistaken for a phrase. */
  lemma ExpressionIsNoPhrase(expr: string, day: string, rest: string)
    requires Valid(Fields(expr)) && StartsWithLetter(day)
    ensures TrimSpace(expr) != day + rest
  {
    FieldsOfTrimmed(expr);
    if TrimSpace(expr) != "" { TrimmedStart(expr); }
    if Fields(expr)[0] != "*" { ValidStart(Fields(expr)[0], 0, 59); }
  }

  /**
    A valid expression is given a phrase exactly when minute and hour are plain
    numbers, every month is meant, and the days are every day, one day of the month,
    or plain weekdays.
    */
  lemma WhenHumanized(expr: string)
    requires Valid(Fields(expr))
    ensures HumanizeCron(expr) != TrimSpace(expr) <==>
      var f := Fields(expr);
      && IsNumber(f[0]) && IsNumber(f[1]) && f[3] == "*"
      && (if f[4] == "*" then f[2] == "*" || IsNumber(f[2]) else f[2] == "*" && PlainWeekdays(f[4]))
  {
    PhraseOrExpression(expr);
    hide HumanizeCron, HumanWeekday, PlainWeekdays, Value, IsNumber, TrimSpace, Fields;
    var f := Fields(expr);
    PlainNumber(f[0], 0, 59);
    PlainNumber(f[1], 0, 23);
    PlainNumber(f[2], 1, 31);
    if f[4] != "*" { WeekdayPhraseExists(f[4]); }
    if HumanDay(f[2], f[3], f[4]).Some? && HumanClock(f[0], f[1]).Some? {
      DayStartsWithLetter(f[2], f[3], f[4]);
      ExpressionIsNoPhrase(expr, HumanDay(f[2], f[3], f[4]).value, " " + HumanClock(f[0], f[1]).value);
    }
  }

  /** What the phrase says, read back, is exactly what the fields denote. */
  ghost predicate Tells(phrase: string, f: seq<string>)
    requires |f| == 5
  {
    ReadPhrase(phrase).Some? && Meaning(ReadPhrase(phrase).value) == Denoted(f)
  }

  /** The output for a valid expression never misleads: it is the expression itself or tells what it denotes. */
  lemma NeverMisleads(expr: string)
    requires Valid(Fields(expr))
    ensures HumanizeCron(expr) == TrimSpace(expr) || Tells(HumanizeCron(expr), Fields(expr))
  {
    PhraseOrExpression(expr);
    hide HumanizeCron, HumanClock, HumanDay, ReadDays, ReadPhrase, IsNumber, Value, TrimSpace, Fields, DayMatches;
    var f := Fields(expr);
    if HumanizeCron(expr) != TrimSpace(expr) {
      ClockShape(f[0], f[1]);
      PlainNumber(f[0], 0, 59);
      PlainNumber(f[1], 0, 23);
      DaysReadBack(f[2], f[3], f[4]);
      ClockReadsBack(HumanDay(f[2], f[3], f[4]).value, Atoi(f[1]).value, Atoi(f[0]).value);
    }
  }

  /** The expression that lists five fields, a space between each two. */
  function Expression(minute: string, hour: string, dom: string, month: string, dow: string): string {
    minute + " " + (hour + " " + (dom + " " + (month + " " + dow)))
  }

  /** Five valid fields written with spaces between them are read as these fields, each in its place. */
  lemma FieldsOfExpression(minute: string, hour: string, dom: string, month: string, dow: string)
    requires IsWord(minute) && IsWord(hour) && IsWord(dom) && IsWord(month) && IsWord(dow)
    ensures Fields(Expression(minute, hour, dom, month, dow)) == [minute, hour, dom, month, dow]
    ensures TrimSpace(Expression(minute, hour, dom, month, dow)) == Expression(minute, hour, dom, month, dow)
  {
    hide Fields, TrimSpace;
    FieldsOfWord(dow);
    WordBefore(month, dow);
    WordBefore(dom, month + " " + dow);
    WordBefore(hour, dom + " " + (month + " " + dow));
    WordBefore(minute, hour + " " + (dom + " " + (month + " " + dow)));
    var expr := Expression(minute, hour, dom, month, dow);
    assert expr[0] == minute[0] && expr[|expr| - 1] == dow[|dow| - 1];
    AlreadyTrimmed(expr);
  }

  lemma WordBefore(w: string, rest: string)
    requires IsWord(w)
    ensures Fields(w + " " + rest) == [w] + Fields(rest)
  {
    FieldsOfWord(w);
    FieldsPart(w, ' ', rest);
  }

  /** What is printed for five valid fields is the expression itself, or tells when the five of them, each in its place, say. */
  lemma PhraseTellsFields(minute: string, hour: string, dom: string, month: string, dow: string)
    requires ValidField(minute, 0, 59) && ValidField(hour, 0, 23)
    requires ValidField(dom, 1, 31) && ValidField(month, 1, 12) && ValidField(dow, 0, 6)
    ensures var expr := Expression(minute, hour, dom, month, dow);
      var told := ReadPhrase(HumanizeCron(expr));
      HumanizeCron(expr) == expr
      || (told.Some? && forall m: Moment ::
            m in Meaning(told.value) <==>
              && OnCalendar(m) && FieldMatches(minute, m.minute) && FieldMatches(hour, m.hour)
              && DayMatches(dom, month, dow, m))
  {
    ValidFieldIsWord(minute, 0, 59);
    ValidFieldIsWord(hour, 0, 23);
    ValidFieldIsWord(dom, 1, 31);
    ValidFieldIsWord(month, 1, 12);
    ValidFieldIsWord(dow, 0, 6);
    FieldsOfExpression(minute, hour, dom, month, dow);
    hide Fields, TrimSpace, HumanizeCron, Meaning, ReadPhrase, ValidField, FieldMatches, DayMatches, IsWord, Expression;
    NeverMisleads(Expression(minute, hour, dom, month, dow));
  }

  /** Equal descriptions of valid expressions mean equal schedules. */
  lemma EqualPhrasesMeanEqualSchedules(a: string, b: string)
    requires Valid(Fields(a)) && Valid(Fields(b)) && HumanizeCron(a) == HumanizeCron(b)
    ensures Denoted(Fields(a)) == Denoted(Fields(b))
  {
    if HumanizeCron(a) != TrimSpace(a) && HumanizeCron(b) != TrimSpace(b) {
      NeverMisleads(a);
      NeverMisleads(b);
    } else if HumanizeCron(a) == TrimSpace(a) && HumanizeCron(b) == TrimSpace(b) {
      FieldsOfTrimmed(a);
      FieldsOfTrimmed(b);
    } else if HumanizeCron(a) == TrimSpace(a) {
      PhraseIsNoExpression(b, a);
    } else {
      PhraseIsNoExpression(a, b);
    }
  }

  lemma PhraseIsNoExpression(a: string, b: string)
    requires HumanizeCron(a) != TrimSpace(a) && Valid(Fields(b))
    ensures HumanizeCron(a) != TrimSpace(b)
  {
    PhraseOrExpression(a);
    hide HumanizeCron, HumanClock, HumanDay, TrimSpace, Fields;
    var f := Fields(a);
    DayStartsWithLetter(f[2], f[3], f[4]);
    ExpressionIsNoPhrase(b, HumanDay(f[2], f[3], f[4]).value, " " + HumanClock(f[0], f[1]).value);
  }

  /** Fields that are printed as a phrase. */
  lemma PrintedAs(minute: string, hour: string, dom: string, month: string, dow: string)
    requires IsWord(minute) && IsWord(hour) && IsWord(dom) && IsWord(month) && IsWord(dow)
    requires HumanClock(minute, hour).Some? && HumanDay(dom, month, dow).Some?
    ensures HumanizeCron(Expression(minute, hour, dom, month, dow))
         == HumanDay(dom, month, dow).value + " " + HumanClock(minute, hour).value
  {
    FieldsOfExpression(minute, hour, dom, month, dow);
    DayStartsWithLetter(dom, month, dow);
    hide Fields, TrimSpace, HumanClock, HumanDay;
  }

  /** The number that a short decimal string is, and the two digits it is printed with. */
  lemma ShortNumber(n: nat, s: string)
    requires (n < 10 && s == [Digit(n)]) || (n < 100 && s == [Digit(n / 10), Digit(n % 10)])
    ensures Atoi(s) == Some(n) && IsWord(s)
    ensures n < 100 && Pad2(n) == [Digit(n / 10), Digit(n % 10)]
  {
    assert IsDigit(s[0]) && IsDigit(s[|s| - 1]);
    OneDigit(s[0]);
    assert s[..1] == [s[0]];
    if |s| == 1 { assert s == [s[0]]; }
  }

  lemma KnownPhrase(minute: string, hour: string, dom: string, month: string, dow: string, m: nat, h: nat, day: string)
    requires IsWord(minute) && IsWord(hour) && IsWord(dom) && IsWord(month) && IsWord(dow)
    requires Atoi(minute) == Some(m) && Atoi(hour) == Some(h) && m < 60 && h < 24 && HumanDay(dom, month, dow) == Some(day)
    ensures HumanizeCron(Expression(minute, hour, dom, month, dow)) == day + " " + (Pad2(h) + ":" + Pad2(m))
  {
    hide Atoi, Pad2, HumanDay, IsWord, HumanizeCron, Expression;
    assert HumanClock(minute, hour) == Some(Pad2(h) + ":" + Pad2(m));
    PrintedAs(minute, hour, dom, month, dow);
  }

  lemma KnownWeekdays()
    ensures ParseDow("1") == Some(1) && ParseDow("3") == Some(3) && ParseDow("5") == Some(5)
  {
    ShortNumber(1, "1");
    ShortNumber(3, "3");
    ShortNumber(5, "5");
    AlreadyTrimmed("1");
    AlreadyTrimmed("3");
    AlreadyTrimmed("5");
    hide Atoi, TrimSpace;
  }

  lemma KnownSingle()
    ensures HumanWeekday("1") == Some("Mons")
  {
    KnownWeekdays();
    var one := "1";
    OnlyPieces([one], '-');
    assert Joined([one], '-') == one;
    hide Split, ParseDow, Join, NamesOf;
    assert DayName(1) + "s" == "Mons";
  }

  lemma KnownRange()
    ensures HumanWeekday("1-3") == Some("Mon\U{2013}Wed")
  {
    KnownWeekdays();
    TwoDigits("1-3", '-');
    hide Split, ParseDow, Join, NamesOf;
    assert ParseDowRange("1-3") == Some((1, 3));
    hide ParseDowRange;
    assert DayName(1) + "\U{2013}" + DayName(3) == "Mon\U{2013}Wed";
  }

  lemma KnownList()
    ensures HumanWeekday("1,3,5") == Some("Mon, Wed, Fri")
  {
    hide HumanWeekday, Split, NamesOf, ParseDow, ParseDowRange, DayName;
    KnownPieces();
    KnownNames();
    ListedWeekdays("1,3,5", ["1", "3", "5"], ["Mon", "Wed", "Fri"]);
    assert ["Mon", "Wed", "Fri"][1..] == ["Wed", "Fri"] && ["Wed", "Fri"][1..] == ["Fri"];
    assert Join(["Wed", "Fri"], ", ") == "Wed, Fri";
    assert Join(["Mon", "Wed", "Fri"], ", ") == "Mon, " + Join(["Wed", "Fri"], ", ") == "Mon, Wed, Fri";
  }

  lemma ListedWeekdays(dow: string, parts: seq<string>, names: seq<string>)
    requires |dow| > 3 && ',' in dow && |Split(dow, '-')| != 2
    requires Split(dow, ',') == parts && 2 <= |parts| <= 4 && NamesOf(parts) == Some(names)
    ensures HumanWeekday(dow) == Some(Join(names, ", "))
  {
    hide Split, NamesOf, ParseDow;
    if ParseDow(dow).Some? { NoCommaInside(dow); }
  }

  lemma KnownPieces()
    ensures Split("1,3,5", ',') == ["1", "3", "5"] && Split("1,3,5", '-') == ["1,3,5"]
  {
    var list := ["1", "3", "5"];
    assert Joined(list[2..], ',') == "5";
    assert Joined(list[1..], ',') == "3,5";
    assert Joined(list, ',') == "1,3,5";
    OnlyPieces(list, ',');
    var dow := "1,3,5";
    OnlyPieces([dow], '-');
    assert Joined([dow], '-') == dow;
  }

  lemma KnownNames()
    ensures NamesOf(["1", "3", "5"]) == Some(["Mon", "Wed", "Fri"])
  {
    KnownWeekdays();
    NamesOfFirst("5", 5, [], []);
    NamesOfFirst("3", 3, ["5"], ["Fri"]);
    NamesOfFirst("1", 1, ["3", "5"], ["Wed", "Fri"]);
    hide ParseDow, NamesOf;
    assert [DayName(5)] + [] == ["Fri"] && ["5"] + [] == ["5"];
    assert [DayName(3)] + ["Fri"] == ["Wed", "Fri"] && ["3"] + ["5"] == ["3", "5"];
    assert [DayName(1)] + ["Wed", "Fri"] == ["Mon", "Wed", "Fri"] && ["1"] + ["3", "5"] == ["1", "3", "5"];
  }

  lemma NamesOfFirst(first: string, d: nat, rest: seq<string>, names: seq<string>)
    requires d < 7 && ParseDow(first) == Some(d)
    ensures NamesOf(rest) == Some(names) ==> NamesOf([first] + rest) == Some([DayName(d)] + names)
    ensures NamesOf([]) == Some([])
  {
    hide ParseDow, DayName;
    assert ([first] + rest)[1..] == rest;
  }

  /** The phrases the program's own tests expect. */
  lemma KnownPhrases()
    ensures HumanizeCron("0 8 * * 1-5") == "Weekdays 08:00"
    ensures HumanizeCron("0 7 * * *") == "Daily 07:00"
    ensures HumanizeCron("30 9 * * 0,6") == "Weekends 09:30"
    ensures HumanizeCron("0 6 * * 1") == "Mons 06:00"
    ensures HumanizeCron("0 6 * * 1,3,5") == "Mon, Wed, Fri 06:00"
    ensures HumanizeCron("0 9 * * 1-3") == "Mon\U{2013}Wed 09:00"
    ensures HumanizeCron("0 0 1 * *") == "Monthly day 1 00:00"
  {
    KnownNumbers();
    KnownWords();
    KnownDays();
    WrittenOut();
    hide HumanizeCron, HumanDay, Atoi, Pad2, IsWord, Expression;
    KnownPhrase("0", "8", "*", "*", "1-5", 0, 8, "Weekdays");
    KnownPhrase("0", "7", "*", "*", "*", 0, 7, "Daily");
    KnownPhrase("30", "9", "*", "*", "0,6", 30, 9, "Weekends");
    KnownPhrase("0", "6", "*", "*", "1", 0, 6, "Mons");
    KnownPhrase("0", "6", "*", "*", "1,3,5", 0, 6, "Mon, Wed, Fri");
    KnownPhrase("0", "9", "*", "*", "1-3", 0, 9, "Mon\U{2013}Wed");
    KnownPhrase("0", "0", "1", "*", "*", 0, 0, "Monthly day 1");
  }

  lemma KnownNumbers()
    ensures Atoi("0") == Some(0) && Atoi("1") == Some(1) && Atoi("6") == Some(6) && Atoi("7") == Some(7)
    ensures Atoi("8") == Some(8) && Atoi("9") == Some(9) && Atoi("30") == Some(30)
    ensures Pad2(0) == "00" && Pad2(6) == "06" && Pad2(7) == "07" && Pad2(8) == "08" && Pad2(9) == "09" && Pad2(30) == "30"
  {
    ShortNumber(0, "0");
    ShortNumber(1, "1");
    ShortNumber(6, "6");
    ShortNumber(7, "7");
    ShortNumber(8, "8");
    ShortNumber(9, "9");
    ShortNumber(30, "30");
  }

  lemma KnownWords()
    ensures IsWord("0") && IsWord("1") && IsWord("6") && IsWord("7") && IsWord("8") && IsWord("9") && IsWord("30")
    ensures IsWord("*") && IsWord("1-5") && IsWord("0,6") && IsWord("1,3,5") && IsWord("1-3")
  {
  }

  lemma KnownDays()
    ensures HumanDay("*", "*", "1-5") == Some("Weekdays") && HumanDay("*", "*", "*") == Some("Daily")
    ensures HumanDay("*", "*", "0,6") == Some("Weekends") && HumanDay("*", "*", "1") == Some("Mons")
    ensures HumanDay("*", "*", "1,3,5") == Some("Mon, Wed, Fri") && HumanDay("*", "*", "1-3") == Some("Mon\U{2013}Wed")
    ensures HumanDay("1", "*", "*") == Some("Monthly day 1")
  {
    hide HumanWeekday, Atoi, Itoa, Pad2;
    KnownSingle();
    KnownRange();
    KnownList();
    KnownShorthands();
    KnownNumbers();
    FirstOfMonth();
    assert "Monthly day " + "1" == "Monthly day 1";
  }

  lemma FirstOfMonth()
    ensures Itoa(1) == "1"
  {
  }

  lemma KnownShorthands()
    ensures HumanWeekday("1-5") == Some("Weekdays") && HumanWeekday("0,6") == Some("Weekends")
  {
  }

  /** The expressions of `KnownPhrases`, field by field. */
  lemma WrittenOut()
    ensures Expression("0", "8", "*", "*", "1-5") == "0 8 * * 1-5"
    ensures Expression("0", "7", "*", "*", "*") == "0 7 * * *"
    ensures Expression("30", "9", "*", "*", "0,6") == "30 9 * * 0,6"
    ensures Expression("0", "6", "*", "*", "1") == "0 6 * * 1"
    ensures Expression("0", "6", "*", "*", "1,3,5") == "0 6 * * 1,3,5"
    ensures Expression("0", "9", "*", "*", "1-3") == "0 9 * * 1-3"
    ensures Expression("0", "0", "1", "*", "*") == "0 0 1 * *"
  {
  }

  /** Outside the domain: with 7 for Sunday the field `0,7` lists one day twice, and is printed as the weekend. */
  lemma SevenIsPrintedAsSaturday()
    ensures HumanWeekday("0,7") == Some("Weekends")
    ensures forall k :: 0 <= k < |Split("0,7", ',')| ==> ParseDow(Split("0,7", ',')[k]) == Some(0)
  {
    var dow := "0,7";
    TwoDigits(dow, ',');
    AlreadyTrimmed([dow[0]]);
    AlreadyTrimmed([dow[2]]);
  }
}
