/** The three kinds of failure the AI layer distinguishes. */
module AiErrors {
  datatype Kind = Transient | Permanent | Output
}
