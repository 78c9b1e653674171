/** The keys the bot reads from the API's JSON, and how Python's repr writes them. */
module ApiKeys {
  import opened PyValues

  const HomeworksKey := "homeworks"
  const CurrentDateKey := "current_date"
  const StatusKey := "status"
  const NameKey := "homework_name"

  /**
   * ReprOfPlain for a key, with the expected text as a parameter: the callers
   * pass the quoted literal, so the verifier compares two given strings instead
   * of evaluating repr on the key's literal.
   */
  lemma QuotedKey(key: string, quoted: string)
    requires forall i :: 0 <= i < |key| ==> Verbatim(key[i], '\'')
    requires quoted == "'" + key + "'"
    ensures Repr(Str(key)) == quoted
  {
    ReprOfPlain(key);
  }

  /** repr of a key: the key in single quotes. */
  lemma HomeworksKeyRepr()
    ensures Repr(Str(HomeworksKey)) == "'homeworks'"
  {
    QuotedKey(HomeworksKey, "'homeworks'");
  }

  lemma StatusKeyRepr()
    ensures Repr(Str(StatusKey)) == "'status'"
  {
    QuotedKey(StatusKey, "'status'");
  }

  lemma NameKeyRepr()
    ensures Repr(Str(NameKey)) == "'homework_name'"
  {
    QuotedKey(NameKey, "'homework_name'");
  }
}
