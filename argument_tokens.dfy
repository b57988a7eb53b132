/**
 * The field prefixes of the applicant commands and the tokenizer's output
 * (an ArgumentMultimap) as the add-command parser reads it. The tokenizer
 * itself is not part of this model: its result is an input value.
 */
module ArgumentTokens {
  import opened Wrappers

  /** The nine field markers the add command is tokenized with. */
  datatype Prefix =
    | PrefixName
    | PrefixPhone
    | PrefixEmail
    | PrefixSkill
    | PrefixGrade
    | PrefixInstitution
    | PrefixCourse
    | PrefixGraduationYearMonth
    | PrefixStatus

  /**
   * Tokenized arguments: the trimmed preamble, the raw values recorded for
   * each prefix in input order, and `select`, the multimap's own rule for
   * which of several values of one prefix `getValue` returns.
   */
  datatype ArgumentMultimap = ArgumentMultimap(
    preamble: string,
    values: map<Prefix, seq<string>>,
    select: seq<string> -> string)

  /** The selection rule returns one of the values it is given. */
  ghost predicate SelectsSupplied(m: ArgumentMultimap) {
    forall vs: seq<string> :: vs != [] ==> m.select(vs) in vs
  }

  /** getAllValues: every value recorded for `p`, or none when `p` never occurred. */
  function AllValues(m: ArgumentMultimap, p: Prefix): (r: seq<string>)
    ensures p !in m.values ==> r == []
    ensures p in m.values ==> r == m.values[p]
    ensures forall v :: v in r ==> p in m.values && v in m.values[p]
  {
    if p in m.values then m.values[p] else []
  }

  /** `p` has a value: the sequence recorded for it is non-empty. */
  predicate HasValue(m: ArgumentMultimap, p: Prefix) {
    AllValues(m, p) != []
  }

  /** getValue: one of the values of `p` when it has any, chosen by the multimap. */
  function GetValue(m: ArgumentMultimap, p: Prefix): (r: Option<string>)
    ensures r.Some? <==> p in m.values && |m.values[p]| > 0
    ensures r.Some? && SelectsSupplied(m) ==> r.value in m.values[p]
  {
    var vs := AllValues(m, p);
    if vs == [] then None else Some(m.select(vs))
  }
}
