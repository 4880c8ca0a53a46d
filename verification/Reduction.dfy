/** What an object answers when a pass visits it. */
module Reduction {
  datatype ReductionResult = RESULT_NONE | RESULT_DELETE | RESULT_BAIL
}
