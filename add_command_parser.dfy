/**
 * AddCommandParser: turns the tokenized arguments of an `add` command into
 * an AddCommand wrapping a new Applicant, or into the parse error the Java
 * code throws.
 */
module AddCommandParser {
  import opened Wrappers
  import opened ArgumentTokens
  import opened Applicants

  /** The usage text a format error carries; only the add command's is used here. */
  datatype Usage = AddUsage

  /**
   * A ParseException. InvalidCommandFormat is the one thrown by the parser
   * itself; InvalidValue carries the message of an exception thrown by a
   * field converter, unchanged.
   */
  datatype ParseError =
    | InvalidCommandFormat(usage: Usage)
    | InvalidValue(message: string)

  datatype AddCommand = AddCommand(toAdd: Applicant)

  /**
   * What the parser calls but does not define: ParserUtil's converters, each
   * returning its value or the message of the ParseException it throws, and
   * the status the status-less Applicant constructor fills in.
   */
  datatype Collaborators = Collaborators(
    parseName: string -> Result<Name, string>,
    parsePhone: string -> Result<Phone, string>,
    parseEmail: string -> Result<Email, string>,
    parseGrade: string -> Result<Grade, string>,
    parseInstitution: string -> Result<Institution, string>,
    parseGraduationYearMonth: string -> Result<GraduationYearMonth, string>,
    parseCourse: string -> Result<Course, string>,
    parseTags: seq<string> -> Result<set<Skill>, string>,
    parseStatus: string -> Result<ApplicationStatus, string>,
    defaultStatus: ApplicationStatus)

  /** The prefixes the arguments are tokenized with, in the order the parser passes them. */
  const TOKENIZED_PREFIXES: seq<Prefix> :=
    [PrefixName, PrefixPhone, PrefixEmail, PrefixSkill, PrefixGrade,
     PrefixInstitution, PrefixCourse, PrefixGraduationYearMonth, PrefixStatus]

  /** The prefixes that must have a value. */
  const MANDATORY_PREFIXES: seq<Prefix> :=
    [PrefixName, PrefixPhone, PrefixEmail, PrefixGrade,
     PrefixInstitution, PrefixCourse, PrefixGraduationYearMonth]

  const FORMAT_ERROR: Result<AddCommand, ParseError> := Failure(InvalidCommandFormat(AddUsage))

  /** arePrefixesPresent: every prefix of `ps`, checked left to right, has a value. */
  function ArePrefixesPresent(m: ArgumentMultimap, ps: seq<Prefix>): (r: bool)
    ensures r <==> forall i :: 0 <= i < |ps| ==> HasValue(m, ps[i])
  {
    ps == [] || (GetValue(m, ps[0]).Some? && ArePrefixesPresent(m, ps[1..]))
  }

  /** The seven mandatory fields each have a value, spelled out one by one. */
  predicate AllMandatoryPresent(m: ArgumentMultimap) {
    && HasValue(m, PrefixName)
    && HasValue(m, PrefixPhone)
    && HasValue(m, PrefixEmail)
    && HasValue(m, PrefixGrade)
    && HasValue(m, PrefixInstitution)
    && HasValue(m, PrefixCourse)
    && HasValue(m, PrefixGraduationYearMonth)
  }

  /** The parser's presence check over MANDATORY_PREFIXES is exactly AllMandatoryPresent. */
  lemma MandatoryPresence(m: ArgumentMultimap)
    ensures ArePrefixesPresent(m, MANDATORY_PREFIXES) <==> AllMandatoryPresent(m)
  {
    if AllMandatoryPresent(m) {
      forall i | 0 <= i < |MANDATORY_PREFIXES| ensures HasValue(m, MANDATORY_PREFIXES[i]) {
        assert MANDATORY_PREFIXES[i] in MANDATORY_PREFIXES;
      }
    }
    if ArePrefixesPresent(m, MANDATORY_PREFIXES) {
      assert HasValue(m, MANDATORY_PREFIXES[0]) && HasValue(m, MANDATORY_PREFIXES[1])
          && HasValue(m, MANDATORY_PREFIXES[2]) && HasValue(m, MANDATORY_PREFIXES[3])
          && HasValue(m, MANDATORY_PREFIXES[4]) && HasValue(m, MANDATORY_PREFIXES[5])
          && HasValue(m, MANDATORY_PREFIXES[6]);
    }
  }

  /** The check before any conversion: all mandatory prefixes have values and there is no preamble. */
  predicate FormatIsValid(m: ArgumentMultimap) {
    AllMandatoryPresent(m) && m.preamble == []
  }

  /** getValue(p).get(), for a prefix known to have a value. */
  function Value(m: ArgumentMultimap, p: Prefix): (v: string)
    requires HasValue(m, p)
    ensures SelectsSupplied(m) ==> v in AllValues(m, p)
  {
    GetValue(m, p).value
  }

  /** parse: the presence and preamble check, then the conversions. */
  function Parse(c: Collaborators, m: ArgumentMultimap): (r: Result<AddCommand, ParseError>)
    ensures r == FORMAT_ERROR <==> !FormatIsValid(m)
  {
    MandatoryPresence(m);
    if !ArePrefixesPresent(m, MANDATORY_PREFIXES) || m.preamble != [] then
      FORMAT_ERROR
    else
      ConvertFields(c, m)
  }

  /**
   * The conversions after a passed check: the mandatory fields in source
   * order (graduation year-month before course), all skill values, then the
   * status branch; the first converter that throws decides the result.
   */
  function ConvertFields(c: Collaborators, m: ArgumentMultimap): (r: Result<AddCommand, ParseError>)
    requires FormatIsValid(m)
    ensures r.Failure? ==> r.error.InvalidValue?
  {
    match c.parseName(Value(m, PrefixName))
    case Failure(msg) => Failure(InvalidValue(msg))
    case Success(name) =>
    match c.parsePhone(Value(m, PrefixPhone))
    case Failure(msg) => Failure(InvalidValue(msg))
    case Success(phone) =>
    match c.parseEmail(Value(m, PrefixEmail))
    case Failure(msg) => Failure(InvalidValue(msg))
    case Success(email) =>
    match c.parseGrade(Value(m, PrefixGrade))
    case Failure(msg) => Failure(InvalidValue(msg))
    case Success(grade) =>
    match c.parseInstitution(Value(m, PrefixInstitution))
    case Failure(msg) => Failure(InvalidValue(msg))
    case Success(institution) =>
    match c.parseGraduationYearMonth(Value(m, PrefixGraduationYearMonth))
    case Failure(msg) => Failure(InvalidValue(msg))
    case Success(graduationYearMonth) =>
    match c.parseCourse(Value(m, PrefixCourse))
    case Failure(msg) => Failure(InvalidValue(msg))
    case Success(course) =>
    match c.parseTags(AllValues(m, PrefixSkill))
    case Failure(msg) => Failure(InvalidValue(msg))
    case Success(skills) =>
    if GetValue(m, PrefixStatus).None? then
      Success(AddCommand(Applicant(name, phone, email, grade, institution, course,
                                   graduationYearMonth, c.defaultStatus, skills)))
    else
      match c.parseStatus(Value(m, PrefixStatus))
      case Failure(msg) => Failure(InvalidValue(msg))
      case Success(status) =>
      Success(AddCommand(Applicant(name, phone, email, grade, institution, course,
                                   graduationYearMonth, status, skills)))
  }
}
