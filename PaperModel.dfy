/** The Paper schema: its paths, the setters (`trim`, `uppercase`) applied
    when a value is cast, the validators (`required`, `enum`, `min`, `max` and
    the custom drive-link test) and the `pre('save')` timestamp hook. */
module PaperModel {
  import opened Wrappers
  import opened Text
  import opened ObjectIds

  /** A schema path that carries a validator. `Kind` is the path named `type`. */
  datatype Path = Title | Kind | Subject | Year | Season | PaperType | DriveLink | AddedBy

  /** One entry of a validation error: the path and the rule it broke. */
  datatype FieldError =
    | Required(path: Path)
    | NotInEnum(path: Path)
    | BelowMin(path: Path)
    | AboveMax(path: Path)
    | Invalid(path: Path)
    | CastFailed(path: Path)

  /** The paths of a request body the schema reads; a path may be absent.
      Any other plain key is dropped by the schema. A key starting with `$`
      is an update operator once `update` spreads the body into the update
      document; this type does not carry such keys. */
  datatype PaperBody = PaperBody(
    title: Option<string>,
    kind: Option<string>,
    subject: Option<string>,
    year: Option<int>,
    season: Option<string>,
    paperType: Option<string>,
    driveLink: Option<string>,
    description: Option<string>,
    addedBy: Option<AdminId>,
    createdAt: Option<int>)

  /** A stored paper document; times are milliseconds since the epoch. */
  datatype Paper = Paper(
    id: PaperId,
    title: string,
    kind: string,
    subject: string,
    year: int,
    season: string,
    paperType: string,
    driveLink: string,
    description: Option<string>,
    addedBy: AdminId,
    createdAt: int,
    updatedAt: int)

  const MinYear: int := 2000
  const Kinds: seq<string> := ["IGCSE", "IAL"]
  const Seasons: seq<string> := ["Winter", "Summer", "Spring", "Fall"]
  const PaperTypes: seq<string> := ["Question Paper", "Mark Scheme"]

  /** The `max` of `year` is computed once, when the module is loaded:
      the calendar year at that moment plus one. */
  function MaxYear(loadYear: int): int {
    loadYear + 1
  }

  /** The schemes and hosts the drive-link pattern admits. */
  const Schemes: seq<string> := ["http://", "https://"]
  const DriveHosts: seq<string> := ["drive.google.com", "www.dropbox.com", "drive.proton.me"]

  /** The link begins with an admitted scheme followed by an admitted host. */
  ghost predicate HasDriveLinkPrefix(v: string) {
    exists scheme, host :: scheme in Schemes && host in DriveHosts && StartsWith(v, scheme + host)
  }

  predicate StartsWithHost(v: string) {
    || StartsWith(v, "drive.google.com")
    || StartsWith(v, "www.dropbox.com")
    || StartsWith(v, "drive.proton.me")
  }

  /** The driveLink validator's regular expression
      `^https?://(drive.google.com|www.dropbox.com|drive.proton.me)`, matched
      left to right: "http", an optional "s", "://", then a host. Nothing
      after the host is looked at. */
  predicate MatchesDriveLinkPattern(v: string) {
    && StartsWith(v, "http")
    && var afterHttp := v[4..];
       var afterScheme := if StartsWith(afterHttp, "s") then afterHttp[1..] else afterHttp;
       StartsWith(afterScheme, "://") && StartsWithHost(afterScheme[3..])
  }

  lemma StartsWithConcat(v: string, a: string, b: string)
    ensures StartsWith(v, a + b) <==> StartsWith(v, a) && StartsWith(v[|a|..], b)
  {
    if StartsWith(v, a) && StartsWith(v[|a|..], b) {
      assert v[..|a + b|] == v[..|a|] + v[|a|..][..|b|];
    }
    if StartsWith(v, a + b) {
      assert v[..|a|] == (a + b)[..|a|];
      assert v[|a|..][..|b|] == (a + b)[|a|..];
    }
  }

  /** The pattern admits exactly the links that begin with one of the six
      prefixes. */
  lemma DriveLinkPatternIff(v: string)
    ensures MatchesDriveLinkPattern(v) <==> HasDriveLinkPrefix(v)
  {
    if MatchesDriveLinkPattern(v) {
      PatternGivesPrefix(v);
    }
    if HasDriveLinkPrefix(v) {
      var scheme, host :| scheme in Schemes && host in DriveHosts && StartsWith(v, scheme + host);
      PrefixGivesPattern(v, scheme, host);
    }
  }

  lemma PatternGivesPrefix(v: string)
    requires MatchesDriveLinkPattern(v)
    ensures HasDriveLinkPrefix(v)
  {
    var scheme := SchemeOf(v);
    var w := v[|scheme|..];
    var host := if StartsWith(w, DriveHosts[0]) then DriveHosts[0]
                else if StartsWith(w, DriveHosts[1]) then DriveHosts[1]
                else DriveHosts[2];
    StartsWithConcat(v, scheme, host);
  }

  /** The scheme the pattern consumed from a link it admits. */
  function SchemeOf(v: string): (scheme: string)
    requires MatchesDriveLinkPattern(v)
    ensures scheme in Schemes && StartsWith(v, scheme)
    ensures StartsWithHost(v[|scheme|..])
  {
    if StartsWith(v[4..], "s") then
      StartsWithConcat(v, "http", "s");
      StartsWithConcat(v, "https", "://");
      assert v[4..][1..] == v[5..];
      assert v[5..][3..] == v[8..];
      "https://"
    else
      StartsWithConcat(v, "http", "://");
      assert v[4..][3..] == v[7..];
      "http://"
  }

  lemma PrefixGivesPattern(v: string, scheme: string, host: string)
    requires scheme in Schemes && host in DriveHosts && StartsWith(v, scheme + host)
    ensures MatchesDriveLinkPattern(v)
  {
    StartsWithConcat(v, scheme, host);
    assert StartsWithHost(v[|scheme|..]);
    if scheme == "https://" {
      StartsWithConcat(v, "https", "://");
      StartsWithConcat(v, "http", "s");
      assert v[4..][..1] == v[4..5];
      assert v[4..][1..] == v[5..];
      assert v[5..][3..] == v[8..];
    } else {
      assert scheme == "http://";
      StartsWithConcat(v, "http", "://");
      assert v[4..][..3] == "://";
      assert v[4..][..1] == [':'];
      assert !StartsWith(v[4..], "s");
      assert v[4..][3..] == v[7..];
      assert StartsWithHost(v[4..][3..]);
    }
  }

  /** The casting setters: `trim` on title, subject and description,
      `uppercase` on type. */
  function ApplySetters(b: PaperBody): PaperBody {
    b.(title := TrimOpt(b.title),
       kind := UpperOpt(b.kind),
       subject := TrimOpt(b.subject),
       description := TrimOpt(b.description))
  }

  function TrimOpt(v: Option<string>): Option<string> {
    if v.Some? then Some(Trim(v.value)) else None
  }

  function UpperOpt(v: Option<string>): Option<string> {
    if v.Some? then Some(ToUpper(v.value)) else None
  }

  /** `required: true` on a string path. A path absent from the body is
      missing only when a whole document is validated (`creating`); an update
      validates only the paths it sets. An empty string is missing either way. */
  function CheckRequired(path: Path, v: Option<string>, creating: bool): Option<FieldError> {
    if v.None? then (if creating then Some(Required(path)) else None)
    else if v.value == "" then Some(Required(path))
    else None
  }

  /** `required: true` with an `enum`: the required check runs first. */
  function CheckEnum(path: Path, v: Option<string>, allowed: seq<string>, creating: bool): Option<FieldError> {
    if CheckRequired(path, v, creating).Some? then CheckRequired(path, v, creating)
    else if v.Some? && v.value !in allowed then Some(NotInEnum(path))
    else None
  }

  /** `year`: required, `min: 2000`, then `max: maxYear`. */
  function CheckYear(v: Option<int>, maxYear: int, creating: bool): Option<FieldError> {
    if v.None? then (if creating then Some(Required(Year)) else None)
    else if v.value < MinYear then Some(BelowMin(Year))
    else if v.value > maxYear then Some(AboveMax(Year))
    else None
  }

  /** `driveLink`: required, then the pattern. */
  function CheckDriveLink(v: Option<string>, creating: bool): Option<FieldError> {
    if CheckRequired(DriveLink, v, creating).Some? then CheckRequired(DriveLink, v, creating)
    else if v.Some? && !MatchesDriveLinkPattern(v.value) then Some(Invalid(DriveLink))
    else None
  }

  /** The first validator of path `p` that fails on a body whose setters
      have run, if any. */
  function Check(c: PaperBody, maxYear: int, creating: bool, p: Path): (r: Option<FieldError>)
    ensures r.Some? ==> r.value.path == p
  {
    match p
    case Title => CheckRequired(Title, c.title, creating)
    case Kind => CheckEnum(Kind, c.kind, Kinds, creating)
    case Subject => CheckRequired(Subject, c.subject, creating)
    case Year => CheckYear(c.year, maxYear, creating)
    case Season => CheckEnum(Season, c.season, Seasons, creating)
    case PaperType => CheckEnum(PaperType, c.paperType, PaperTypes, creating)
    case DriveLink => CheckDriveLink(c.driveLink, creating)
    case AddedBy => CheckRequired(AddedBy, c.addedBy, creating)
  }

  /** The validated paths in schema order. */
  const SchemaPaths: seq<Path> := [Title, Kind, Subject, Year, Season, PaperType, DriveLink, AddedBy]

  function Position(p: Path): (i: nat)
    ensures i < |SchemaPaths| && SchemaPaths[i] == p
  {
    match p
    case Title => 0
    case Kind => 1
    case Subject => 2
    case Year => 3
    case Season => 4
    case PaperType => 5
    case DriveLink => 6
    case AddedBy => 7
  }

  /** The errors of the paths in `ps`, in order. */
  function ErrorsOf(c: PaperBody, maxYear: int, creating: bool, ps: seq<Path>): (r: seq<FieldError>)
    ensures forall e :: e in r ==> e.path in ps && Check(c, maxYear, creating, e.path) == Some(e)
    ensures forall p :: p in ps && Check(c, maxYear, creating, p).Some? ==> Check(c, maxYear, creating, p).value in r
  {
    if ps == [] then []
    else
      var here := Check(c, maxYear, creating, ps[0]);
      (if here.Some? then [here.value] else []) + ErrorsOf(c, maxYear, creating, ps[1..])
  }

  /** The validation error of a body whose setters have run: one entry per
      failing path, in schema order. */
  function Errors(c: PaperBody, maxYear: int, creating: bool): seq<FieldError> {
    ErrorsOf(c, maxYear, creating, SchemaPaths)
  }

  /** An error is reported exactly when its path's validators produce it. */
  lemma ErrorsIff(c: PaperBody, maxYear: int, creating: bool, e: FieldError)
    ensures e in Errors(c, maxYear, creating) <==> Check(c, maxYear, creating, e.path) == Some(e)
  {
    assert SchemaPaths[Position(e.path)] == e.path;
  }

  /** No error at all exactly when every path passes. */
  lemma ErrorsEmptyIff(c: PaperBody, maxYear: int, creating: bool)
    ensures Errors(c, maxYear, creating) == [] <==> forall p :: Check(c, maxYear, creating, p).None?
  {
    if Errors(c, maxYear, creating) == [] {
      forall p ensures Check(c, maxYear, creating, p).None? {
        assert SchemaPaths[Position(p)] == p;
      }
    } else {
      var e := Errors(c, maxYear, creating)[0];
      assert e in Errors(c, maxYear, creating);
    }
  }

  /** What the schema guarantees of every document it lets through. */
  ghost predicate WellFormedPaper(p: Paper, maxYear: int) {
    && p.title != "" && IsTrimmed(p.title)
    && p.kind in Kinds
    && p.subject != "" && IsTrimmed(p.subject)
    && MinYear <= p.year <= maxYear
    && p.season in Seasons
    && p.paperType in PaperTypes
    && HasDriveLinkPrefix(p.driveLink)
    && (p.description.Some? ==> IsTrimmed(p.description.value))
    && p.addedBy != ""
  }

  ghost predicate NotBlank(v: Option<string>) {
    v.Some? && !AllSpace(v.value)
  }

  /** The conditions on a raw create body, stated without the validators,
      path by path (see `PathAcceptable`). */
  ghost predicate AcceptableBody(b: PaperBody, maxYear: int) {
    forall p :: PathAcceptable(b, maxYear, p)
  }

  /** What a create body must satisfy at path `p`: required paths present
      and not blank, `type` in the enum once upper-cased, the year in range,
      the link on an allowed prefix. */
  ghost predicate PathAcceptable(b: PaperBody, maxYear: int, p: Path) {
    match p
    case Title => NotBlank(b.title)
    case Kind => b.kind.Some? && ToUpper(b.kind.value) in Kinds
    case Subject => NotBlank(b.subject)
    case Year => b.year.Some? && MinYear <= b.year.value <= maxYear
    case Season => b.season.Some? && b.season.value in Seasons
    case PaperType => b.paperType.Some? && b.paperType.value in PaperTypes
    case DriveLink => b.driveLink.Some? && HasDriveLinkPrefix(b.driveLink.value)
    case AddedBy => b.addedBy.Some? && b.addedBy.value != ""
  }

  /** The `pre('save')` hook: the document's `updatedAt` becomes the time of
      the save. */
  function PreSave(p: Paper, now: int): Paper {
    p.(updatedAt := now)
  }

  /** The document `new Paper(body)` builds from a body that passed
      validation: `createdAt` takes its default when the body does not give
      it, and `save()` runs the `pre('save')` hook. */
  function BuildPaper(c: PaperBody, id: PaperId, now: int): Paper
    requires c.title.Some? && c.kind.Some? && c.subject.Some? && c.year.Some?
    requires c.season.Some? && c.paperType.Some? && c.driveLink.Some? && c.addedBy.Some?
  {
    PreSave(Paper(id, c.title.value, c.kind.value, c.subject.value, c.year.value,
                  c.season.value, c.paperType.value, c.driveLink.value, c.description,
                  c.addedBy.value, c.createdAt.GetOr(now), now), now)
  }

  lemma PassingChecksWellFormed(b: PaperBody, id: PaperId, maxYear: int, now: int)
    requires forall p :: Check(ApplySetters(b), maxYear, true, p).None?
    ensures var c := ApplySetters(b);
            && c.title.Some? && c.kind.Some? && c.subject.Some? && c.year.Some?
            && c.season.Some? && c.paperType.Some? && c.driveLink.Some? && c.addedBy.Some?
    ensures WellFormedPaper(BuildPaper(ApplySetters(b), id, now), maxYear)
  {
    var c := ApplySetters(b);
    PassingChecksGiveValues(c, maxYear, true);
    var p := BuildPaper(c, id, now);
    assert IsTrimmed(p.title) && IsTrimmed(p.subject);
    assert p.description.Some? ==> IsTrimmed(p.description.value);
    DriveLinkPatternIff(c.driveLink.value);
  }

  /** What passing every validator says of each path's value: a path that
      is set holds an allowed value, and on create every path is set. */
  lemma PassingChecksGiveValues(c: PaperBody, maxYear: int, creating: bool)
    requires forall p :: Check(c, maxYear, creating, p).None?
    ensures creating ==> && c.title.Some? && c.kind.Some? && c.subject.Some? && c.year.Some?
                         && c.season.Some? && c.paperType.Some? && c.driveLink.Some? && c.addedBy.Some?
    ensures c.title.Some? ==> c.title.value != ""
    ensures c.kind.Some? ==> c.kind.value in Kinds
    ensures c.subject.Some? ==> c.subject.value != ""
    ensures c.year.Some? ==> MinYear <= c.year.value <= maxYear
    ensures c.season.Some? ==> c.season.value in Seasons
    ensures c.paperType.Some? ==> c.paperType.value in PaperTypes
    ensures c.driveLink.Some? ==> MatchesDriveLinkPattern(c.driveLink.value)
    ensures c.addedBy.Some? ==> c.addedBy.value != ""
  {
    assert Check(c, maxYear, creating, Title).None?;
    assert Check(c, maxYear, creating, Kind).None?;
    assert Check(c, maxYear, creating, Subject).None?;
    assert Check(c, maxYear, creating, Year).None?;
    assert Check(c, maxYear, creating, Season).None?;
    assert Check(c, maxYear, creating, PaperType).None?;
    assert Check(c, maxYear, creating, DriveLink).None?;
    assert Check(c, maxYear, creating, AddedBy).None?;
  }

  lemma SettersIdempotent(b: PaperBody)
    ensures ApplySetters(ApplySetters(b)) == ApplySetters(b)
  {
    if b.title.Some? { TrimIdempotent(b.title.value); }
    if b.subject.Some? { TrimIdempotent(b.subject.value); }
    if b.description.Some? { TrimIdempotent(b.description.value); }
    if b.kind.Some? { ToUpperIdempotent(b.kind.value); }
  }

  /** `new Paper(body)` followed by `save()`: cast with the setters, validate
      every path, and on success build the document. */
  function NewPaper(b: PaperBody, id: PaperId, maxYear: int, now: int): (r: Result<Paper, seq<FieldError>>)
    ensures r.Err? <==> Errors(ApplySetters(b), maxYear, true) != []
    ensures r.Err? ==> r.error == Errors(ApplySetters(b), maxYear, true)
    ensures r.Ok? ==> WellFormedPaper(r.value, maxYear)
    ensures r.Ok? ==> && b.title.Some? && b.kind.Some? && b.subject.Some? && b.year.Some?
                      && b.season.Some? && b.paperType.Some? && b.driveLink.Some? && b.addedBy.Some?
    ensures r.Ok? ==> && r.value.id == id
                      && r.value.title == Trim(b.title.value)
                      && r.value.kind == ToUpper(b.kind.value)
                      && r.value.subject == Trim(b.subject.value)
                      && r.value.year == b.year.value
                      && r.value.season == b.season.value
                      && r.value.paperType == b.paperType.value
                      && r.value.driveLink == b.driveLink.value
                      && r.value.description == TrimOpt(b.description)
                      && r.value.addedBy == b.addedBy.value
                      && r.value.createdAt == b.createdAt.GetOr(now)
                      && r.value.updatedAt == now
  {
    var c := ApplySetters(b);
    var errs := Errors(c, maxYear, true);
    if errs != [] then Err(errs)
    else
      ErrorsEmptyIff(c, maxYear, true);
      PassingChecksWellFormed(b, id, maxYear, now);
      Ok(BuildPaper(c, id, now))
  }

  /** A create body is accepted exactly when it meets `AcceptableBody`. */
  lemma NewPaperAcceptsIff(b: PaperBody, id: PaperId, maxYear: int, now: int)
    ensures NewPaper(b, id, maxYear, now).Ok? <==> AcceptableBody(b, maxYear)
  {
    CreateErrorsEmptyIff(b, maxYear);
  }

  lemma CreateErrorsEmptyIff(b: PaperBody, maxYear: int)
    ensures Errors(ApplySetters(b), maxYear, true) == [] <==> AcceptableBody(b, maxYear)
  {
    var c := ApplySetters(b);
    ErrorsEmptyIff(c, maxYear, true);
    forall p ensures Check(c, maxYear, true, p).None? <==> PathAcceptable(b, maxYear, p) {
      CheckPassesIff(b, maxYear, p);
    }
  }

  lemma CheckPassesIff(b: PaperBody, maxYear: int, p: Path)
    ensures Check(ApplySetters(b), maxYear, true, p).None? <==> PathAcceptable(b, maxYear, p)
  {
    match p
    case Title => TrimmedRequiredIff(Title, b.title);
    case Subject => TrimmedRequiredIff(Subject, b.subject);
    case DriveLink => DriveLinkRequiredIff(b.driveLink);
    case _ =>
  }

  lemma TrimmedRequiredIff(path: Path, v: Option<string>)
    ensures CheckRequired(path, TrimOpt(v), true).None? <==> NotBlank(v)
  {
    if v.Some? {
      TrimEmptyIff(v.value);
    }
  }

  lemma DriveLinkRequiredIff(v: Option<string>)
    ensures CheckDriveLink(v, true).None? <==> v.Some? && HasDriveLinkPrefix(v.value)
  {
    if v.Some? {
      DriveLinkPatternIff(v.value);
    }
  }

  /** `type` is upper-cased before the enum is consulted: a value is
      rejected as outside the enum exactly when its upper-cased form is
      neither IGCSE nor IAL (and it is not empty, which `required` reports). */
  lemma KindErrorIff(b: PaperBody, maxYear: int, creating: bool)
    requires b.kind.Some?
    ensures NotInEnum(Kind) in Errors(ApplySetters(b), maxYear, creating)
            <==> b.kind.value != "" && ToUpper(b.kind.value) !in Kinds
  {
    ErrorsIff(ApplySetters(b), maxYear, creating, NotInEnum(Kind));
  }

  /** The year is rejected below 2000, and above the load-time maximum when
      it is not already below 2000 (`min` runs before `max`). */
  lemma YearErrorIff(b: PaperBody, maxYear: int, creating: bool)
    requires b.year.Some?
    ensures BelowMin(Year) in Errors(ApplySetters(b), maxYear, creating) <==> b.year.value < MinYear
    ensures AboveMax(Year) in Errors(ApplySetters(b), maxYear, creating)
            <==> MinYear <= b.year.value && b.year.value > maxYear
  {
    ErrorsIff(ApplySetters(b), maxYear, creating, BelowMin(Year));
    ErrorsIff(ApplySetters(b), maxYear, creating, AboveMax(Year));
  }

  /** A present, non-empty link is rejected exactly when it does not begin
      with an allowed prefix. */
  lemma DriveLinkErrorIff(b: PaperBody, maxYear: int, creating: bool)
    requires b.driveLink.Some? && b.driveLink.value != ""
    ensures Invalid(DriveLink) in Errors(ApplySetters(b), maxYear, creating)
            <==> !HasDriveLinkPrefix(b.driveLink.value)
  {
    ErrorsIff(ApplySetters(b), maxYear, creating, Invalid(DriveLink));
    DriveLinkPatternIff(b.driveLink.value);
  }

  /** A create with a required path absent reports that path as missing;
      an update never reports a path it does not set. */
  lemma AbsentPathReported(b: PaperBody, maxYear: int, p: Path)
    requires PathValue(ApplySetters(b), p).None?
    ensures Required(p) in Errors(ApplySetters(b), maxYear, true)
    ensures forall e :: e in Errors(ApplySetters(b), maxYear, false) ==> e.path != p
  {
    ErrorsIff(ApplySetters(b), maxYear, true, Required(p));
  }

  /** Whether a body sets path `p`. */
  function PathValue(c: PaperBody, p: Path): Option<()> {
    match p
    case Title => if c.title.Some? then Some(()) else None
    case Kind => if c.kind.Some? then Some(()) else None
    case Subject => if c.subject.Some? then Some(()) else None
    case Year => if c.year.Some? then Some(()) else None
    case Season => if c.season.Some? then Some(()) else None
    case PaperType => if c.paperType.Some? then Some(()) else None
    case DriveLink => if c.driveLink.Some? then Some(()) else None
    case AddedBy => if c.addedBy.Some? then Some(()) else None
  }

  /** The partial update `findByIdAndUpdate` applies: every path the body
      sets replaces the stored value, the others are kept, and `updatedAt`
      is the time of the update. */
  function Merge(p: Paper, c: PaperBody, now: int): Paper {
    Paper(p.id,
          c.title.GetOr(p.title), c.kind.GetOr(p.kind), c.subject.GetOr(p.subject),
          c.year.GetOr(p.year), c.season.GetOr(p.season), c.paperType.GetOr(p.paperType),
          c.driveLink.GetOr(p.driveLink),
          if c.description.Some? then c.description else p.description,
          c.addedBy.GetOr(p.addedBy), c.createdAt.GetOr(p.createdAt), now)
  }

  /** Update validators check only the paths the body sets, and that is
      enough: merging a body they accept into a well-formed paper gives a
      well-formed paper. */
  lemma MergeKeepsWellFormed(p: Paper, b: PaperBody, maxYear: int, now: int)
    requires WellFormedPaper(p, maxYear)
    requires Errors(ApplySetters(b), maxYear, false) == []
    ensures WellFormedPaper(Merge(p, ApplySetters(b), now), maxYear)
  {
    var c := ApplySetters(b);
    ErrorsEmptyIff(c, maxYear, false);
    PassingChecksGiveValues(c, maxYear, false);
    var m := Merge(p, c, now);
    assert IsTrimmed(m.title) && IsTrimmed(m.subject);
    assert m.description.Some? ==> IsTrimmed(m.description.value);
    if c.driveLink.Some? {
      DriveLinkPatternIff(c.driveLink.value);
    }
  }

  /** An update that sets no path passes validation and changes nothing but
      `updatedAt`. */
  lemma EmptyUpdate(p: Paper, maxYear: int, now: int)
    ensures var none := PaperBody(None, None, None, None, None, None, None, None, None, None);
            && Errors(ApplySetters(none), maxYear, false) == []
            && Merge(p, ApplySetters(none), now) == p.(updatedAt := now)
  {
    var none := PaperBody(None, None, None, None, None, None, None, None, None, None);
    ErrorsEmptyIff(ApplySetters(none), maxYear, false);
  }

  /** A create whose `type` is written in lower case is accepted when the
      rest of the body is, and stored as "IGCSE". */
  lemma LowerCaseTypeStoredUpper(b: PaperBody, id: PaperId, maxYear: int, now: int)
    requires b.kind == Some("igcse")
    requires forall p :: p != Kind ==> PathAcceptable(b, maxYear, p)
    ensures NewPaper(b, id, maxYear, now).Ok?
    ensures NewPaper(b, id, maxYear, now).value.kind == "IGCSE"
  {
    assert ToUpper("igcse") == "IGCSE";
    assert PathAcceptable(b, maxYear, Kind);
    NewPaperAcceptsIff(b, id, maxYear, now);
  }
}
