/**
 * The two validators of the task service: the status enumeration and the
 * due-date check. The date parser (`datetime.strptime` with format
 * `%Y-%m-%d`) is not modelled; it is passed in as `parses`, the verdict of
 * the parser on a string.
 */
module Validation {
  import opened Optional

  /** The three status labels the service accepts, as they appear on the wire. */
  datatype Status = Pendente | Realizando | Concluida {
    function Name(): string
    {
      match this
      case Pendente => "pendente"
      case Realizando => "realizando"
      case Concluida => "conclu\U{ED}da"
    }
  }

  /** `validate_status`: a case-sensitive membership test over the three labels. */
  function ValidateStatus(s: string): (b: bool)
    ensures b <==> exists st: Status :: st.Name() == s
  {
    assert Pendente.Name() == "pendente";
    assert Realizando.Name() == "realizando";
    assert Concluida.Name() == "conclu\U{ED}da";
    s in ["pendente", "realizando", "conclu\U{ED}da"]
  }

  /** No case folding and no accent folding: near misses of a label are rejected. */
  lemma StatusNotNormalised()
    ensures !ValidateStatus("Pendente")
    ensures !ValidateStatus("PENDENTE")
    ensures !ValidateStatus("concluida")
    ensures !ValidateStatus(" pendente")
    ensures !ValidateStatus("")
  {
  }

  /**
   * `validate_date`: an absent or empty date is accepted without consulting
   * the parser; any other string is accepted exactly when the parser accepts it.
   */
  function ValidateDate(dateStr: Option<string>, parses: string -> bool): (b: bool)
    ensures !Present(dateStr) ==> b
    ensures Present(dateStr) ==> (b <==> parses(dateStr.value))
  {
    if !Present(dateStr) then true else parses(dateStr.value)
  }

  /**
   * The handlers test `due_date and not validate_date(due_date)`; the
   * leading truthiness test is redundant, because `validate_date` already
   * accepts every falsy date.
   */
  lemma DueDateGuardRedundant(dueDate: Option<string>, parses: string -> bool)
    ensures (Present(dueDate) && !ValidateDate(dueDate, parses)) <==> !ValidateDate(dueDate, parses)
  {
  }
}
