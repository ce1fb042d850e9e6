/** The content records of internal/content/types.go: blog posts, projects, the résumé and its
    parts, the loaded snapshot, résumé date formatting, and the YAML decoding of a résumé bullet. */
module ContentTypes {
  import opened Wrappers
  import opened Text

  // ---------------------------------------------------------------- records

  /** A time.Time reduced to its calendar date; front-matter dates carry no time of day. */
  datatype Date = Date(year: int, month: int, day: int)

  /** t.After(u): t is strictly later than u. */
  predicate After(t: Date, u: Date) {
    t.year > u.year
    || (t.year == u.year && (t.month > u.month || (t.month == u.month && t.day > u.day)))
  }

  /** The zero time.Time, which a post without a `date` field keeps. */
  const ZeroDate: Date := Date(1, 1, 1)

  /** HTML produced by the Markdown renderer (template.HTML). */
  type HTML = string

  datatype BlogPost = BlogPost(
    slug: string, title: string, date: Date, description: string, tags: seq<string>, content: HTML)

  datatype Project = Project(
    slug: string, title: string, date: Date, description: string, tags: seq<string>,
    repo: string, url: string, status: string, featured: bool, content: HTML)

  /** A month of 0 means the month was omitted. */
  datatype ResumeDate = ResumeDate(year: int, month: int)

  /** A bullet holds its raw text and raw sub-bullets as decoded, and their rendered twins. */
  datatype ResumeBullet = ResumeBullet(text: HTML, rawText: string, sub: seq<ResumeBullet>, rawSub: seq<ResumeBullet>)

  datatype ResumeEntry = ResumeEntry(
    title: string, organization: string, location: string, start: ResumeDate,
    end: Option<ResumeDate>, note: string, bullets: seq<ResumeBullet>, dateRange: string)

  datatype ResumeSkill = ResumeSkill(category: string, detail: string)

  datatype ResumePresentation = ResumePresentation(
    title: string, rawVenue: string, venue: HTML, date: ResumeDate, dateFormatted: string)

  datatype ResumePubSection = ResumePubSection(section: string, rawItems: seq<string>, items: seq<HTML>)

  datatype ResumeLink = ResumeLink(text: string, url: string)

  datatype ResumeOSSProject = ResumeOSSProject(
    name: string, tagline: string, rawBullets: seq<string>, bullets: seq<HTML>, links: seq<ResumeLink>)

  datatype ResumeOSSSection = ResumeOSSSection(section: string, projects: seq<ResumeOSSProject>)

  datatype Resume = Resume(
    name: string, tagline: string, rawSummary: string, summary: HTML,
    experience: seq<ResumeEntry>, education: seq<ResumeEntry>, skills: seq<ResumeSkill>,
    research: seq<ResumeEntry>, awards: seq<string>, presentations: seq<ResumePresentation>,
    publications: seq<ResumePubSection>, openSource: seq<ResumeOSSSection>)

  /** One loaded snapshot of the site content. The index maps hold the records themselves;
      the Go maps hold pointers into Posts and Projects, which are never written after loading. */
  datatype ContentStore = ContentStore(
    posts: seq<BlogPost>,
    postsBySlug: map<string, BlogPost>,
    postsByTag: map<string, seq<BlogPost>>,
    projects: seq<Project>,
    projectsBySlug: map<string, Project>,
    resume: Option<Resume>)

  // ---------------------------------------------------------------- date formatting

  /** Month abbreviations in AP style; index 0 is unused. */
  const ShortMonths: seq<string> :=
    ["", "Jan.", "Feb.", "Mar.", "Apr.", "May", "June", "July", "Aug.", "Sept.", "Oct.", "Nov.", "Dec."]

  const EnDash: char := '\U{2013}'

  /** " – ", the separator of a date range. */
  const RangeSeparator: string := [' ', EnDash, ' ']

  /** "Month Year" when the month is 1..12, otherwise the year alone. */
  function FormatDate(d: ResumeDate): string {
    if 1 <= d.month <= 12 then ShortMonths[d.month] + " " + IntToString(d.year)
    else IntToString(d.year)
  }

  /** "Start – End", or "Start – Present" for an open-ended range. */
  function FormatDateRange(start: ResumeDate, end: Option<ResumeDate>): string
  {
    match end
    case None => FormatDate(start) + RangeSeparator + "Present"
    case Some(e) => FormatDate(start) + RangeSeparator + FormatDate(e)
  }

  /** The month whose abbreviation is name, or 0 when there is none. */
  function MonthNumber(name: string): (m: nat)
    ensures m <= 12
  {
    if name == "Jan." then 1 else if name == "Feb." then 2 else if name == "Mar." then 3
    else if name == "Apr." then 4 else if name == "May" then 5 else if name == "June" then 6
    else if name == "July" then 7 else if name == "Aug." then 8 else if name == "Sept." then 9
    else if name == "Oct." then 10 else if name == "Nov." then 11 else if name == "Dec." then 12
    else 0
  }

  /** The month table is a bijection between 1..12 and its twelve distinct abbreviations. */
  lemma MonthNumberInverse(m: int, name: string)
    ensures 1 <= m <= 12 ==> MonthNumber(ShortMonths[m]) == m
    ensures MonthNumber(name) != 0 ==> ShortMonths[MonthNumber(name)] == name
  {
  }

  /** The table's spelling: May, June and July carry no period, September is "Sept.", and the
      other eight are three letters and a period. */
  lemma MonthTableShape(m: int)
    requires 1 <= m <= 12
    ensures |ShortMonths[m]| >= 3
    ensures ShortMonths[m][|ShortMonths[m]| - 1] == '.' <==> m != 5 && m != 6 && m != 7
    ensures m == 9 ==> ShortMonths[m] == "Sept."
    ensures m != 5 && m != 6 && m != 7 && m != 9 ==> |ShortMonths[m]| == 4
  {
  }

  /** None of the abbreviations contains a space or an en dash. */
  lemma MonthNamesPlain(m: int)
    requires 1 <= m <= 12
    ensures forall i :: 0 <= i < |ShortMonths[m]| ==> ShortMonths[m][i] != ' ' && ShortMonths[m][i] != EnDash
  {
  }

  /** The date FormatDate actually shows: an out-of-range month is dropped. */
  function Shown(d: ResumeDate): (r: ResumeDate)
    ensures r.year == d.year
    ensures (1 <= d.month <= 12 ==> r == d) && (!(1 <= d.month <= 12) ==> r.month == 0)
  {
    if 1 <= d.month <= 12 then d else ResumeDate(d.year, 0)
  }

  /** Reads back a formatted date: "Abbrev Year" or "Year". */
  function ParseFormattedDate(s: string): Option<ResumeDate> {
    var k := IndexOf(s, ' ');
    if k == |s| then
      match Atoi(s)
      case Some(y) => Some(ResumeDate(y, 0))
      case None => None
    else
      var m := MonthNumber(s[..k]);
      if m == 0 then None
      else
        match Atoi(s[k + 1..])
        case Some(y) => Some(ResumeDate(y, m))
        case None => None
  }

  lemma NoSpaceInYear(y: int)
    ensures IndexOf(IntToString(y), ' ') == |IntToString(y)|
    ensures forall i :: 0 <= i < |IntToString(y)| ==> IntToString(y)[i] != EnDash
  {
    IntToStringChars(y);
  }

  /** Reading a formatted date gives back the date it shows, for every 64-bit year. */
  lemma FormatDateRoundTrip(d: ResumeDate)
    requires MinInt64 <= d.year <= MaxInt64
    ensures ParseFormattedDate(FormatDate(d)) == Some(Shown(d))
  {
    var y := IntToString(d.year);
    IntToStringAtoi(d.year);
    NoSpaceInYear(d.year);
    if 1 <= d.month <= 12 {
      var name := ShortMonths[d.month];
      var s := name + " " + y;
      MonthNamesPlain(d.month);
      assert s == name + (" " + y);
      IndexOfAppend(name, " " + y, ' ');
      assert IndexOf(s, ' ') == |name|;
      assert s[..|name|] == name && s[|name| + 1..] == y;
      MonthNumberInverse(d.month, name);
    }
  }

  /** A formatted date has no en dash. */
  lemma FormatDateNoDash(d: ResumeDate)
    ensures forall i :: 0 <= i < |FormatDate(d)| ==> FormatDate(d)[i] != EnDash
  {
    NoSpaceInYear(d.year);
    if 1 <= d.month <= 12 {
      MonthNamesPlain(d.month);
      var s := ShortMonths[d.month] + " " + IntToString(d.year);
      assert forall i :: |ShortMonths[d.month]| + 1 <= i < |s| ==> s[i] == IntToString(d.year)[i - |ShortMonths[d.month]| - 1];
    }
  }

  datatype DateRange = DateRange(start: ResumeDate, end: Option<ResumeDate>)

  /** Reads back a formatted range: the start before " – ", then "Present" or an end date. */
  function ParseDateRange(r: string): Option<DateRange> {
    var k := IndexOf(r, EnDash);
    if !(1 <= k && k + 2 <= |r|) then None
    else RangeParts(r[..k - 1], r[k + 2..])
  }

  /** The start text and the text after the separator, each read back. */
  function RangeParts(s: string, tail: string): Option<DateRange> {
    match ParseFormattedDate(s)
    case None => None
    case Some(start) =>
      if tail == "Present" then Some(DateRange(start, None))
      else
        match ParseFormattedDate(tail)
        case None => None
        case Some(e) => Some(DateRange(start, Some(e)))
  }

  lemma ParseDateRangeSplit(s: string, tail: string)
    requires forall i :: 0 <= i < |s| ==> s[i] != EnDash
    ensures ParseDateRange(s + RangeSeparator + tail) == RangeParts(s, tail)
  {
    var r := s + RangeSeparator + tail;
    assert r == s + (RangeSeparator + tail);
    IndexOfAppend(s, RangeSeparator + tail, EnDash);
    assert IndexOf(r, EnDash) == |s| + 1;
    assert r[..|s|] == s;
    assert r[|s| + 3..] == tail;
  }

  /** "Present" cannot be mistaken for an end date. */
  lemma PresentIsNotADate()
    ensures ParseFormattedDate("Present") == None
  {
    var p := "Present";
    assert forall i :: 0 <= i < |p| ==> p[i] != ' ';
    assert IndexOf(p, ' ') == |p|;
    assert !IsDigit(p[1]);
  }

  /** Reading a formatted range gives back both dates as shown, and tells an open range apart,
      for every 64-bit year. */
  lemma FormatDateRangeRoundTrip(start: ResumeDate, end: Option<ResumeDate>)
    requires MinInt64 <= start.year <= MaxInt64
    requires end.Some? ==> MinInt64 <= end.value.year <= MaxInt64
    ensures ParseDateRange(FormatDateRange(start, end))
         == Some(DateRange(Shown(start), if end.Some? then Some(Shown(end.value)) else None))
  {
    var s := FormatDate(start);
    FormatDateNoDash(start);
    FormatDateRoundTrip(start);
    if end.Some? {
      var e := FormatDate(end.value);
      ParseDateRangeSplit(s, e);
      FormatDateRoundTrip(end.value);
      PresentIsNotADate();
      assert RangeParts(s, e) == Some(DateRange(Shown(start), Some(Shown(end.value))));
    } else {
      ParseDateRangeSplit(s, "Present");
    }
  }

  /** An open-ended range in a year with no month. */
  lemma FormatDateRangePresentExample()
    ensures FormatDateRange(ResumeDate(2024, 0), None) == "2024 \U{2013} Present"
  {
    assert IntToString(2024) == "2024" by {
      assert NatToString(2) == "2";
      assert NatToString(20) == "20";
      assert NatToString(202) == "202";
    }
  }

  /** A closed range with September and April. */
  lemma FormatDateRangeClosedExample()
    ensures FormatDateRange(ResumeDate(2015, 9), Some(ResumeDate(2020, 4))) == "Sept. 2015 \U{2013} Apr. 2020"
  {
    Year2015();
    Year2020();
    assert FormatDate(ResumeDate(2015, 9)) == "Sept. 2015";
    assert FormatDate(ResumeDate(2020, 4)) == "Apr. 2020";
  }

  lemma Year2015()
    ensures IntToString(2015) == "2015"
  {
    assert NatToString(2) == "2";
    assert NatToString(20) == "20";
    assert NatToString(201) == "201";
  }

  lemma Year2020()
    ensures IntToString(2020) == "2020"
  {
    assert NatToString(2) == "2";
    assert NatToString(20) == "20";
    assert NatToString(202) == "202";
  }

  // ---------------------------------------------------------------- decoding a résumé bullet

  /** A YAML node as yaml.v3 hands it to a decoder. A scalar records whether its tag resolved
      to null (`~`, `null`, an empty value); mapping keys are plain, non-null scalars. */
  datatype YamlNode =
    | Scalar(value: string, isNull: bool)
    | Mapping(pairs: seq<YamlPair>)
    | Sequence(items: seq<YamlNode>)

  datatype YamlPair = YamlPair(key: string, value: YamlNode)

  datatype NodeKind = ScalarKind | MappingKind | SequenceKind

  function KindOf(n: YamlNode): NodeKind {
    match n
    case Scalar(_, _) => ScalarKind
    case Mapping(_) => MappingKind
    case Sequence(_) => SequenceKind
  }

  /** The Go type a node was being decoded into when a type error arose. */
  datatype Target = IntoString | IntoBulletList | IntoBulletObject

  /** One entry of a yaml.TypeError (line numbers are not modelled). */
  datatype Problem = DuplicateKey(key: string) | CannotUnmarshal(kind: NodeKind, into: Target)

  /** The error UnmarshalYAML returns: always the "decoding bullet: " wrapper around what
      value.Decode reported. */
  datatype BulletError = DecodingBullet(cause: DecodeCause)

  /** What value.Decode reports: the type errors collected over the whole node, or the error of
      a nested bullet, which is not a type error and so aborts the decode at once. */
  datatype DecodeCause = UnmarshalErrors(problems: seq<Problem>) | NestedBullet(inner: BulletError)

  /** The anonymous {text, sub} struct being filled, and the type errors so far. */
  datatype ObjFields = ObjFields(text: string, sub: seq<ResumeBullet>, problems: seq<Problem>)

  /** A bullet as decoding leaves it: nothing rendered yet, at any depth. */
  predicate IsRaw(b: ResumeBullet) {
    b.text == "" && b.sub == [] && AllRaw(b.rawSub)
  }

  predicate AllRaw(bs: seq<ResumeBullet>) {
    forall i :: 0 <= i < |bs| ==> IsRaw(bs[i])
  }

  predicate DistinctKeys(ps: seq<YamlPair>) {
    forall i, j :: 0 <= i < j < |ps| ==> ps[i].key != ps[j].key
  }

  /** One "already defined" error for each later pair whose key is k. */
  function LaterDuplicates(k: string, rest: seq<YamlPair>): (r: seq<Problem>)
    ensures r == [] <==> forall j :: 0 <= j < |rest| ==> rest[j].key != k
  {
    if rest == [] then []
    else (if rest[0].key == k then [DuplicateKey(k)] else []) + LaterDuplicates(k, rest[1..])
  }

  /** The duplicate-key errors yaml.v3 reports for a mapping before decoding it. */
  function DuplicateKeyProblems(ps: seq<YamlPair>): seq<Problem> {
    if ps == [] then [] else LaterDuplicates(ps[0].key, ps[1..]) + DuplicateKeyProblems(ps[1..])
  }

  /** A mapping is reported for duplicates exactly when two of its keys coincide. */
  lemma {:induction false} DuplicateKeyProblemsEmpty(ps: seq<YamlPair>)
    ensures DuplicateKeyProblems(ps) == [] <==> DistinctKeys(ps)
  {
    if ps != [] {
      DuplicateKeyProblemsEmpty(ps[1..]);
      if DistinctKeys(ps) {
        assert DistinctKeys(ps[1..]) by {
          forall i, j | 0 <= i < j < |ps[1..]| ensures ps[1..][i].key != ps[1..][j].key {
            assert ps[1..][i] == ps[i + 1] && ps[1..][j] == ps[j + 1];
          }
        }
        forall j | 0 <= j < |ps[1..]| ensures ps[1..][j].key != ps[0].key {
          assert ps[1..][j] == ps[j + 1];
        }
      }
      if DuplicateKeyProblems(ps) == [] {
        forall i, j | 0 <= i < j < |ps| ensures ps[i].key != ps[j].key {
          if i == 0 {
            assert ps[1..][j - 1] == ps[j];
          } else {
            assert ps[1..][i - 1] == ps[i] && ps[1..][j - 1] == ps[j];
          }
        }
      }
    }
  }

  /** What decoding a mapping into a string or a slice reports. */
  function MappingProblems(ps: seq<YamlPair>, into: Target): seq<Problem> {
    if DuplicateKeyProblems(ps) != [] then DuplicateKeyProblems(ps) else [CannotUnmarshal(MappingKind, into)]
  }

  /** ResumeBullet.UnmarshalYAML: a scalar is the bullet's text; anything else is decoded as a
      {text, sub} object whose sub-bullets are decoded by this same function. */
  function DecodeBullet(n: YamlNode): (r: Result<ResumeBullet, BulletError>)
    ensures n.Scalar? ==> r == Success(ResumeBullet("", n.value, [], []))
    ensures r.Success? ==> IsRaw(r.value)
    decreases n, 2
  {
    if n.Scalar? then Success(ResumeBullet("", n.value, [], []))
    else
      match DecodeObject(n)
      case Success(f) => Success(ResumeBullet("", f.text, [], f.sub))
      case Failure(c) => Failure(DecodingBullet(c))
  }

  /** value.Decode(&obj) for the {text, sub} struct on a non-scalar node. */
  function DecodeObject(n: YamlNode): (r: Result<ObjFields, DecodeCause>)
    requires !n.Scalar?
    ensures r.Success? ==> AllRaw(r.value.sub) && r.value.problems == []
    decreases n, 1
  {
    match n
    case Sequence(_) => Failure(UnmarshalErrors([CannotUnmarshal(SequenceKind, IntoBulletObject)]))
    case Mapping(ps) =>
      if DuplicateKeyProblems(ps) != [] then Failure(UnmarshalErrors(DuplicateKeyProblems(ps)))
      else DecodeFields(ps, ObjFields("", [], []))
  }

  /** The struct decoder's pass over the pairs in order: `text` and `sub` are filled, other keys
      are ignored, type errors are collected and reported at the end, and a failing nested bullet
      ends the pass. */
  function DecodeFields(ps: seq<YamlPair>, acc: ObjFields): (r: Result<ObjFields, DecodeCause>)
    requires AllRaw(acc.sub)
    ensures r.Success? ==> AllRaw(r.value.sub) && r.value.problems == []
    ensures r.Success? ==> acc.problems == []
    decreases ps, 0
  {
    if ps == [] then
      if acc.problems == [] then Success(acc) else Failure(UnmarshalErrors(acc.problems))
    else
      var p := ps[0];
      if p.key == "text" then
        match p.value
        case Scalar(v, isNull) => DecodeFields(ps[1..], if isNull then acc else acc.(text := v))
        case Mapping(qs) => DecodeFields(ps[1..], acc.(problems := acc.problems + MappingProblems(qs, IntoString)))
        case Sequence(_) =>
          DecodeFields(ps[1..], acc.(problems := acc.problems + [CannotUnmarshal(SequenceKind, IntoString)]))
      else if p.key == "sub" then
        match p.value
        case Scalar(_, isNull) =>
          if isNull then DecodeFields(ps[1..], acc.(sub := []))
          else DecodeFields(ps[1..], acc.(problems := acc.problems + [CannotUnmarshal(ScalarKind, IntoBulletList)]))
        case Mapping(qs) =>
          DecodeFields(ps[1..], acc.(problems := acc.problems + MappingProblems(qs, IntoBulletList)))
        case Sequence(items) =>
          match DecodeList(items)
          case Failure(e) => Failure(NestedBullet(e))
          case Success(bs) => DecodeFields(ps[1..], acc.(sub := bs))
      else DecodeFields(ps[1..], acc)
  }

  /** A sequence of bullets: null items are skipped, the others decoded in order, and the first
      failure is the result. */
  function DecodeList(items: seq<YamlNode>): (r: Result<seq<ResumeBullet>, BulletError>)
    ensures r.Success? ==> AllRaw(r.value) && |r.value| <= |items|
    decreases items, 0
  {
    if items == [] then Success([])
    else if items[0].Scalar? && items[0].isNull then DecodeList(items[1..])
    else
      match DecodeBullet(items[0])
      case Failure(e) => Failure(e)
      case Success(b) =>
        match DecodeList(items[1..])
        case Failure(e) => Failure(e)
        case Success(bs) => Success([b] + bs)
  }

  // ---------------------------------------------------------------- a reference reading of an object bullet

  /** The value of the first pair with key k. */
  function Lookup(ps: seq<YamlPair>, k: string): (r: Option<YamlNode>)
    ensures r.Some? ==> exists i :: 0 <= i < |ps| && ps[i].key == k && ps[i].value == r.value
    ensures r.None? ==> forall i :: 0 <= i < |ps| ==> ps[i].key != k
  {
    if ps == [] then None
    else if ps[0].key == k then Some(ps[0].value)
    else Lookup(ps[1..], k)
  }

  /** The text an object leaves in the struct, given what was there before. */
  function TextAfter(ps: seq<YamlPair>, t: string): string {
    match Lookup(ps, "text")
    case Some(Scalar(v, false)) => v
    case _ => t
  }

  /** The sub-bullets an object leaves in the struct, given what was there before. */
  function SubAfter(ps: seq<YamlPair>, s: seq<ResumeBullet>): seq<ResumeBullet> {
    match Lookup(ps, "sub")
    case Some(Scalar(_, true)) => []
    case Some(Sequence(items)) => if DecodeList(items).Success? then DecodeList(items).value else s
    case _ => s
  }

  /** The error of the nested bullet that fails first under `sub`, if one does. */
  function SubFailure(ps: seq<YamlPair>): Option<BulletError> {
    match Lookup(ps, "sub")
    case Some(Sequence(items)) => if DecodeList(items).Failure? then Some(DecodeList(items).error) else None
    case _ => None
  }

  /** `text` or `sub` holds a node of a kind its field cannot take. */
  predicate MistypedField(ps: seq<YamlPair>) {
    (match Lookup(ps, "text") case Some(Mapping(_)) => true case Some(Sequence(_)) => true case _ => false)
    || (match Lookup(ps, "sub") case Some(Scalar(_, false)) => true case Some(Mapping(_)) => true case _ => false)
  }

  lemma LookupTail(ps: seq<YamlPair>, k: string)
    requires ps != [] && DistinctKeys(ps) && ps[0].key == k
    ensures Lookup(ps[1..], k) == None
  {
    forall i | 0 <= i < |ps[1..]| ensures ps[1..][i].key != k {
      assert ps[1..][i] == ps[i + 1];
    }
  }

  lemma DistinctKeysTail(ps: seq<YamlPair>)
    requires ps != [] && DistinctKeys(ps)
    ensures DistinctKeys(ps[1..])
  {
    forall i, j | 0 <= i < j < |ps[1..]| ensures ps[1..][i].key != ps[1..][j].key {
      assert ps[1..][i] == ps[i + 1] && ps[1..][j] == ps[j + 1];
    }
  }

  /** For distinct keys, the pass over the pairs is characterised key by key. */
  lemma {:induction false} DecodeFieldsByLookup(ps: seq<YamlPair>, acc: ObjFields)
    requires AllRaw(acc.sub) && DistinctKeys(ps)
    ensures SubFailure(ps).Some? ==> DecodeFields(ps, acc) == Failure(NestedBullet(SubFailure(ps).value))
    ensures SubFailure(ps).None? ==>
      (DecodeFields(ps, acc).Success? <==> acc.problems == [] && !MistypedField(ps))
    ensures DecodeFields(ps, acc).Success? ==>
      DecodeFields(ps, acc).value == ObjFields(TextAfter(ps, acc.text), SubAfter(ps, acc.sub), [])
    decreases ps, 1
  {
    if ps != [] {
      DistinctKeysTail(ps);
      if ps[0].key == "text" {
        TextFieldByLookup(ps, acc);
      } else if ps[0].key == "sub" {
        SubFieldByLookup(ps, acc);
      } else {
        DecodeFieldsByLookup(ps[1..], acc);
      }
    }
  }

  /** DecodeFieldsByLookup when the first pair is `text`. */
  lemma {:induction false} TextFieldByLookup(ps: seq<YamlPair>, acc: ObjFields)
    requires AllRaw(acc.sub) && DistinctKeys(ps) && ps != [] && ps[0].key == "text"
    ensures SubFailure(ps).Some? ==> DecodeFields(ps, acc) == Failure(NestedBullet(SubFailure(ps).value))
    ensures SubFailure(ps).None? ==>
      (DecodeFields(ps, acc).Success? <==> acc.problems == [] && !MistypedField(ps))
    ensures DecodeFields(ps, acc).Success? ==>
      DecodeFields(ps, acc).value == ObjFields(TextAfter(ps, acc.text), SubAfter(ps, acc.sub), [])
    decreases ps, 0
  {
    DistinctKeysTail(ps);
    LookupTail(ps, "text");
    match ps[0].value
    case Scalar(v, isNull) => DecodeFieldsByLookup(ps[1..], if isNull then acc else acc.(text := v));
    case Mapping(qs) =>
      DecodeFieldsByLookup(ps[1..], acc.(problems := acc.problems + MappingProblems(qs, IntoString)));
    case Sequence(_) =>
      DecodeFieldsByLookup(ps[1..], acc.(problems := acc.problems + [CannotUnmarshal(SequenceKind, IntoString)]));
  }

  /** DecodeFieldsByLookup when the first pair is `sub`. */
  lemma {:induction false} SubFieldByLookup(ps: seq<YamlPair>, acc: ObjFields)
    requires AllRaw(acc.sub) && DistinctKeys(ps) && ps != [] && ps[0].key == "sub"
    ensures SubFailure(ps).Some? ==> DecodeFields(ps, acc) == Failure(NestedBullet(SubFailure(ps).value))
    ensures SubFailure(ps).None? ==>
      (DecodeFields(ps, acc).Success? <==> acc.problems == [] && !MistypedField(ps))
    ensures DecodeFields(ps, acc).Success? ==>
      DecodeFields(ps, acc).value == ObjFields(TextAfter(ps, acc.text), SubAfter(ps, acc.sub), [])
    decreases ps, 0
  {
    DistinctKeysTail(ps);
    LookupTail(ps, "sub");
    match ps[0].value
    case Scalar(_, isNull) =>
      if isNull {
        DecodeFieldsByLookup(ps[1..], acc.(sub := []));
      } else {
        DecodeFieldsByLookup(ps[1..], acc.(problems := acc.problems + [CannotUnmarshal(ScalarKind, IntoBulletList)]));
      }
    case Mapping(qs) =>
      DecodeFieldsByLookup(ps[1..], acc.(problems := acc.problems + MappingProblems(qs, IntoBulletList)));
    case Sequence(items) =>
      if DecodeList(items).Success? {
        DecodeFieldsByLookup(ps[1..], acc.(sub := DecodeList(items).value));
      }
  }

  /** An object bullet: with duplicate keys it fails with one error per duplicate; otherwise a
      failing sub-bullet is wrapped once more, a mistyped field fails, and in every other case the
      bullet takes its text from `text` and its sub-bullets from `sub` (none when `sub` is absent
      or null). */
  lemma DecodeMapping(ps: seq<YamlPair>)
    ensures !DistinctKeys(ps) ==>
      DecodeBullet(Mapping(ps)) == Failure(DecodingBullet(UnmarshalErrors(DuplicateKeyProblems(ps))))
      && DuplicateKeyProblems(ps) != []
    ensures DistinctKeys(ps) && SubFailure(ps).Some? ==>
      DecodeBullet(Mapping(ps)) == Failure(DecodingBullet(NestedBullet(SubFailure(ps).value)))
    ensures DistinctKeys(ps) && SubFailure(ps).None? ==>
      (DecodeBullet(Mapping(ps)).Success? <==> !MistypedField(ps))
    ensures DecodeBullet(Mapping(ps)).Success? ==>
      DecodeBullet(Mapping(ps)).value == ResumeBullet("", TextAfter(ps, ""), [], SubAfter(ps, []))
  {
    DuplicateKeyProblemsEmpty(ps);
    if DistinctKeys(ps) {
      DecodeFieldsByLookup(ps, ObjFields("", [], []));
    }
  }

  // ---------------------------------------------------------------- writing a bullet back as YAML

  /** A raw bullet as YAML: a plain string, or a {text, sub} mapping when it has sub-bullets. */
  function EncodeBullet(b: ResumeBullet): YamlNode
    decreases b, 1
  {
    if b.rawSub == [] then Scalar(b.rawText, false)
    else Mapping([YamlPair("text", Scalar(b.rawText, false)), YamlPair("sub", Sequence(EncodeList(b.rawSub)))])
  }

  function EncodeList(bs: seq<ResumeBullet>): (r: seq<YamlNode>)
    ensures |r| == |bs|
    decreases bs, 0
  {
    if bs == [] then [] else [EncodeBullet(bs[0])] + EncodeList(bs[1..])
  }

  /** Decoding inverts encoding on every raw bullet tree, at any depth. */
  lemma {:induction false} DecodeEncodeBullet(b: ResumeBullet)
    requires IsRaw(b)
    ensures DecodeBullet(EncodeBullet(b)) == Success(b)
    decreases b, 1
  {
    if b.rawSub != [] {
      DecodeEncodeList(b.rawSub);
      var ps := [YamlPair("text", Scalar(b.rawText, false)), YamlPair("sub", Sequence(EncodeList(b.rawSub)))];
      assert DistinctKeys(ps) by { assert ps[0].key != ps[1].key; }
      DuplicateKeyProblemsEmpty(ps);
      var acc1 := ObjFields(b.rawText, [], []);
      assert ps[1..] == [ps[1]] && ps[1..][1..] == [];
      assert DecodeFields(ps, ObjFields("", [], [])) == DecodeFields(ps[1..], acc1);
      assert DecodeFields(ps[1..], acc1) == DecodeFields([], acc1.(sub := b.rawSub));
    }
  }

  lemma {:induction false} DecodeEncodeList(bs: seq<ResumeBullet>)
    requires AllRaw(bs)
    ensures DecodeList(EncodeList(bs)) == Success(bs)
    decreases bs, 0
  {
    if bs != [] {
      DecodeEncodeBullet(bs[0]);
      assert AllRaw(bs[1..]) by {
        forall i | 0 <= i < |bs[1..]| ensures IsRaw(bs[1..][i]) { assert bs[1..][i] == bs[i + 1]; }
      }
      DecodeEncodeList(bs[1..]);
      var items := EncodeList(bs);
      assert items[0] == EncodeBullet(bs[0]) && items[1..] == EncodeList(bs[1..]);
      assert !(items[0].Scalar? && items[0].isNull);
      assert bs == [bs[0]] + bs[1..];
    }
  }
}
