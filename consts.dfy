/** The return codes of the actions: bit flags combined with `|` and tested
    with `&`. The module defining them is not part of this model; only their
    shape matters here (0, and two distinct bits). */
module Consts {
  type RetCode = bv8

  const RetCodeOk: RetCode := 0
  const RetCodeErr: RetCode := 1
  const RetCodeWarn: RetCode := 2

  predicate HasError(r: RetCode)
  {
    r & RetCodeErr != 0
  }

  predicate HasWarning(r: RetCode)
  {
    r & RetCodeWarn != 0
  }
}
