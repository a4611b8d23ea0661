/**
 * The status badge of a product card: a status string chosen by the
 * product forms is shown with one of three colour styles.
 */
module ProductCard {

  const SoldStyle := "bg-green-100 text-green-800"
  const InactiveStyle := "bg-gray-100 text-gray-800"
  const ActiveStyle := "bg-blue-100 text-blue-800"

  /** The status values the edit form's and the filter's select boxes offer. */
  const FormStatuses: seq<string> := ["ativo", "inativo", "vendido"]

  /**
   * `getStatusStyles` as written: `vendido` is green, `desativado` gray, and
   * `ativo` shares the default case with every other string.
   */
  function StatusStyle(status: string): (style: string)
    ensures style == SoldStyle || style == InactiveStyle || style == ActiveStyle
    ensures style == SoldStyle <==> status == "vendido"
    ensures style == InactiveStyle <==> status == "desativado"
  {
    if status == "vendido" then SoldStyle
    else if status == "desativado" then InactiveStyle
    else ActiveStyle
  }

  /**
   * The forms store the inactive state as `inativo`, which the badge shows
   * with the active (blue) style: inactive and active products look alike.
   */
  lemma InactiveShownAsActive()
    ensures StatusStyle("inativo") == StatusStyle("ativo") == ActiveStyle
    ensures forall i :: 0 <= i < |FormStatuses| ==> StatusStyle(FormStatuses[i]) != InactiveStyle
  {
  }

  /** The badge with both spellings of the inactive state shown gray. */
  function IntendedStatusStyle(status: string): (style: string)
    ensures style == SoldStyle || style == InactiveStyle || style == ActiveStyle
    ensures style == SoldStyle <==> status == "vendido"
    ensures style == InactiveStyle <==> status == "desativado" || status == "inativo"
    ensures status != "inativo" ==> style == StatusStyle(status)
  {
    if status == "vendido" then SoldStyle
    else if status == "desativado" || status == "inativo" then InactiveStyle
    else ActiveStyle
  }

  /** Every status the forms can store gets a badge of its own. */
  lemma IntendedStyleSeparatesFormStatuses()
    ensures forall i, j :: 0 <= i < j < |FormStatuses| ==>
              IntendedStatusStyle(FormStatuses[i]) != IntendedStatusStyle(FormStatuses[j])
  {
    assert FormStatuses[0] == "ativo" && FormStatuses[1] == "inativo" && FormStatuses[2] == "vendido";
  }
}
