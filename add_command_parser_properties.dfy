/**
 * What AddCommandParser.parse promises: which inputs give the format error,
 * the order in which converter errors surface, the status branch, and what
 * the built Applicant holds.
 */
module AddCommandParserProperties {
  import opened Wrappers
  import opened ArgumentTokens
  import opened Applicants
  import opened AddCommandParser

  /** The message a conversion step throws, or None when it succeeds. */
  function ErrorOf<T>(res: Result<T, string>): (r: Option<string>)
  {
    match res
    case Success(_) => None
    case Failure(msg) => Some(msg)
  }

  /**
   * The outcome of every conversion step the parser runs, in the order it
   * runs them: the seven mandatory fields (graduation year-month before
   * course), the skills, and the status, a step that cannot fail when no
   * status was supplied because parseStatus is then not called.
   */
  function ConversionErrors(c: Collaborators, m: ArgumentMultimap): (es: seq<Option<string>>)
    requires FormatIsValid(m)
  {
    [ ErrorOf(c.parseName(Value(m, PrefixName))),
      ErrorOf(c.parsePhone(Value(m, PrefixPhone))),
      ErrorOf(c.parseEmail(Value(m, PrefixEmail))),
      ErrorOf(c.parseGrade(Value(m, PrefixGrade))),
      ErrorOf(c.parseInstitution(Value(m, PrefixInstitution))),
      ErrorOf(c.parseGraduationYearMonth(Value(m, PrefixGraduationYearMonth))),
      ErrorOf(c.parseCourse(Value(m, PrefixCourse))),
      ErrorOf(c.parseTags(AllValues(m, PrefixSkill))),
      if HasValue(m, PrefixStatus) then ErrorOf(c.parseStatus(Value(m, PrefixStatus))) else None ]
  }

  /** The failure a run of steps reports when each step's exception ends the run. */
  function FirstFailure(es: seq<Option<string>>): (r: Option<string>)
  {
    if es == [] then None
    else if es[0].Some? then es[0]
    else FirstFailure(es[1..])
  }

  /**
   * FirstFailure reports nothing exactly when no step fails, and otherwise
   * the failure of a step that only succeeding steps precede.
   */
  lemma {:induction false} FirstFailureIsFirst(es: seq<Option<string>>)
    ensures FirstFailure(es).None? <==> forall i :: 0 <= i < |es| ==> es[i].None?
    ensures FirstFailure(es).Some? ==>
              exists i :: 0 <= i < |es| && es[i] == FirstFailure(es)
                && forall j :: 0 <= j < i ==> es[j].None?
  {
    if es != [] && es[0].None? {
      FirstFailureIsFirst(es[1..]);
      if FirstFailure(es).Some? {
        var i :| 0 <= i < |es[1..]| && es[1..][i] == FirstFailure(es)
                 && forall j :: 0 <= j < i ==> es[1..][j].None?;
        assert es[i + 1] == FirstFailure(es);
      }
    }
  }

  /** A run of steps stops at a failing first step and otherwise continues with the rest. */
  lemma FirstFailureCons(e: Option<string>, rest: seq<Option<string>>)
    ensures FirstFailure([e] + rest) == if e.Some? then e else FirstFailure(rest)
  {
  }

  /** The first failure of nine steps, spelled out step by step. */
  lemma FirstFailureOfNine(e0: Option<string>, e1: Option<string>, e2: Option<string>,
                           e3: Option<string>, e4: Option<string>, e5: Option<string>,
                           e6: Option<string>, e7: Option<string>, e8: Option<string>)
    ensures FirstFailure([e0, e1, e2, e3, e4, e5, e6, e7, e8])
         == if e0.Some? then e0 else if e1.Some? then e1 else if e2.Some? then e2
            else if e3.Some? then e3 else if e4.Some? then e4 else if e5.Some? then e5
            else if e6.Some? then e6 else if e7.Some? then e7 else e8
  {
    FirstFailureCons(e8, []);
    FirstFailureCons(e7, [e8]);
    FirstFailureCons(e6, [e7, e8]);
    FirstFailureCons(e5, [e6, e7, e8]);
    FirstFailureCons(e4, [e5, e6, e7, e8]);
    FirstFailureCons(e3, [e4, e5, e6, e7, e8]);
    FirstFailureCons(e2, [e3, e4, e5, e6, e7, e8]);
    FirstFailureCons(e1, [e2, e3, e4, e5, e6, e7, e8]);
    FirstFailureCons(e0, [e1, e2, e3, e4, e5, e6, e7, e8]);
  }

  /** The prefixes tokenized are the whole vocabulary; the mandatory ones are all but skill and status. */
  lemma TokenizedPrefixes()
    ensures forall p: Prefix :: p in TOKENIZED_PREFIXES
    ensures forall p: Prefix :: p in MANDATORY_PREFIXES <==> p != PrefixSkill && p != PrefixStatus
  {
    forall p: Prefix ensures p in TOKENIZED_PREFIXES {
      match p
      case PrefixName => assert TOKENIZED_PREFIXES[0] == p;
      case PrefixPhone => assert TOKENIZED_PREFIXES[1] == p;
      case PrefixEmail => assert TOKENIZED_PREFIXES[2] == p;
      case PrefixSkill => assert TOKENIZED_PREFIXES[3] == p;
      case PrefixGrade => assert TOKENIZED_PREFIXES[4] == p;
      case PrefixInstitution => assert TOKENIZED_PREFIXES[5] == p;
      case PrefixCourse => assert TOKENIZED_PREFIXES[6] == p;
      case PrefixGraduationYearMonth => assert TOKENIZED_PREFIXES[7] == p;
      case PrefixStatus => assert TOKENIZED_PREFIXES[8] == p;
    }
  }

  /** A non-empty preamble is rejected with the format error, whatever prefixes are present. */
  lemma PreambleRejected(c: Collaborators, m: ArgumentMultimap)
    requires m.preamble != []
    ensures Parse(c, m) == FORMAT_ERROR
  {
  }

  /** A mandatory prefix without a value is rejected with the format error. */
  lemma MissingMandatoryRejected(c: Collaborators, m: ArgumentMultimap, p: Prefix)
    requires p in MANDATORY_PREFIXES && !HasValue(m, p)
    ensures Parse(c, m) == FORMAT_ERROR
  {
  }

  /**
   * The presence and preamble check comes first: when it fails, the result is
   * the format error whatever the converters would do, so none of them runs
   * and no Applicant is built.
   */
  lemma FormatCheckPrecedesConversion(c: Collaborators, c': Collaborators, m: ArgumentMultimap)
    requires !FormatIsValid(m)
    ensures Parse(c, m) == Parse(c', m) == FORMAT_ERROR
  {
  }

  /**
   * Skill and status are optional: two inputs that differ only in their
   * skill and status values (one may have none at all) either both get the
   * format error or neither does.
   */
  lemma OptionalPrefixesNotRequired(c: Collaborators, m: ArgumentMultimap, m': ArgumentMultimap)
    requires m'.preamble == m.preamble
    requires forall p :: p != PrefixSkill && p != PrefixStatus ==> AllValues(m', p) == AllValues(m, p)
    ensures Parse(c, m') == FORMAT_ERROR
        <==> Parse(c, m) == FORMAT_ERROR
  {
    // Not needed for validity; keeps the solver from unfolding both parses.
    assert FormatIsValid(m') == FormatIsValid(m);
  }

  /**
   * Once the format check passes, the parse fails exactly when some
   * conversion step fails, and then with the message of the first failing
   * step in source order, unchanged.
   */
  lemma ConversionErrorOrder(c: Collaborators, m: ArgumentMultimap)
    requires FormatIsValid(m)
    ensures Parse(c, m).Success? <==> FirstFailure(ConversionErrors(c, m)).None?
    ensures Parse(c, m).Failure? ==>
              Parse(c, m).error == InvalidValue(FirstFailure(ConversionErrors(c, m)).value)
  {
    FirstFailureOfNine(
      ErrorOf(c.parseName(Value(m, PrefixName))),
      ErrorOf(c.parsePhone(Value(m, PrefixPhone))),
      ErrorOf(c.parseEmail(Value(m, PrefixEmail))),
      ErrorOf(c.parseGrade(Value(m, PrefixGrade))),
      ErrorOf(c.parseInstitution(Value(m, PrefixInstitution))),
      ErrorOf(c.parseGraduationYearMonth(Value(m, PrefixGraduationYearMonth))),
      ErrorOf(c.parseCourse(Value(m, PrefixCourse))),
      ErrorOf(c.parseTags(AllValues(m, PrefixSkill))),
      if HasValue(m, PrefixStatus) then ErrorOf(c.parseStatus(Value(m, PrefixStatus))) else None);
  }

  /** Graduation year-month is converted before course: when both are malformed its error wins. */
  lemma GraduationYearMonthBeforeCourse(c: Collaborators, m: ArgumentMultimap)
    requires FormatIsValid(m)
    requires c.parseName(Value(m, PrefixName)).Success?
    requires c.parsePhone(Value(m, PrefixPhone)).Success?
    requires c.parseEmail(Value(m, PrefixEmail)).Success?
    requires c.parseGrade(Value(m, PrefixGrade)).Success?
    requires c.parseInstitution(Value(m, PrefixInstitution)).Success?
    requires c.parseGraduationYearMonth(Value(m, PrefixGraduationYearMonth)).Failure?
    ensures Parse(c, m)
         == Failure(InvalidValue(c.parseGraduationYearMonth(Value(m, PrefixGraduationYearMonth)).error))
  {
  }

  /**
   * Without a status value, parseStatus is never called (replacing it
   * changes nothing) and a successful Applicant has the default status.
   */
  lemma StatusAbsentUsesDefault(c: Collaborators, m: ArgumentMultimap,
                                other: string -> Result<ApplicationStatus, string>)
    requires !HasValue(m, PrefixStatus)
    ensures Parse(c.(parseStatus := other), m) == Parse(c, m)
    ensures Parse(c, m).Success? ==> Parse(c, m).value.toAdd.status == c.defaultStatus
  {
  }

  /**
   * With a status value and every other conversion succeeding, the result is
   * decided by parseStatus: its status is used, or its error returned.
   */
  lemma StatusPresentIsParsed(c: Collaborators, m: ArgumentMultimap)
    requires FormatIsValid(m) && HasValue(m, PrefixStatus)
    requires c.parseName(Value(m, PrefixName)).Success?
    requires c.parsePhone(Value(m, PrefixPhone)).Success?
    requires c.parseEmail(Value(m, PrefixEmail)).Success?
    requires c.parseGrade(Value(m, PrefixGrade)).Success?
    requires c.parseInstitution(Value(m, PrefixInstitution)).Success?
    requires c.parseGraduationYearMonth(Value(m, PrefixGraduationYearMonth)).Success?
    requires c.parseCourse(Value(m, PrefixCourse)).Success?
    requires c.parseTags(AllValues(m, PrefixSkill)).Success?
    ensures var s := c.parseStatus(Value(m, PrefixStatus));
            && (Parse(c, m).Success? <==> s.Success?)
            && (s.Success? ==> Parse(c, m).value.toAdd.status == s.value)
            && (s.Failure? ==> Parse(c, m).error == InvalidValue(s.error))
  {
  }

  /**
   * A successful parse passed the format check, and each field of the
   * Applicant is its converter's output for that prefix's value; the skills
   * come from all skill values (none when the prefix never appears).
   */
  lemma SuccessfulApplicant(c: Collaborators, m: ArgumentMultimap)
    requires Parse(c, m).Success?
    ensures FormatIsValid(m)
    ensures var a := Parse(c, m).value.toAdd;
            && c.parseName(Value(m, PrefixName)) == Success(a.name)
            && c.parsePhone(Value(m, PrefixPhone)) == Success(a.phone)
            && c.parseEmail(Value(m, PrefixEmail)) == Success(a.email)
            && c.parseGrade(Value(m, PrefixGrade)) == Success(a.grade)
            && c.parseInstitution(Value(m, PrefixInstitution)) == Success(a.institution)
            && c.parseCourse(Value(m, PrefixCourse)) == Success(a.course)
            && c.parseGraduationYearMonth(Value(m, PrefixGraduationYearMonth)) == Success(a.graduationYearMonth)
            && c.parseTags(AllValues(m, PrefixSkill)) == Success(a.skills)
            && (!HasValue(m, PrefixSkill) ==> c.parseTags([]) == Success(a.skills))
            && (HasValue(m, PrefixStatus) ==> c.parseStatus(Value(m, PrefixStatus)) == Success(a.status))
            && (!HasValue(m, PrefixStatus) ==> a.status == c.defaultStatus)
  {
  }

  /**
   * When the multimap returns one of the values it recorded, every
   * single-valued field of a successful Applicant was converted from a value
   * the user supplied for that field.
   */
  lemma FieldsFromSuppliedValues(c: Collaborators, m: ArgumentMultimap)
    requires SelectsSupplied(m) && Parse(c, m).Success?
    ensures var a := Parse(c, m).value.toAdd;
            && (exists v :: v in AllValues(m, PrefixName) && c.parseName(v) == Success(a.name))
            && (exists v :: v in AllValues(m, PrefixPhone) && c.parsePhone(v) == Success(a.phone))
            && (exists v :: v in AllValues(m, PrefixEmail) && c.parseEmail(v) == Success(a.email))
            && (exists v :: v in AllValues(m, PrefixGrade) && c.parseGrade(v) == Success(a.grade))
            && (exists v :: v in AllValues(m, PrefixInstitution) && c.parseInstitution(v) == Success(a.institution))
            && (exists v :: v in AllValues(m, PrefixCourse) && c.parseCourse(v) == Success(a.course))
            && (exists v :: v in AllValues(m, PrefixGraduationYearMonth)
                  && c.parseGraduationYearMonth(v) == Success(a.graduationYearMonth))
            && (HasValue(m, PrefixStatus) ==>
                  exists v :: v in AllValues(m, PrefixStatus) && c.parseStatus(v) == Success(a.status))
  {
  }
}
