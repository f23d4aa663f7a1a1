/** A finding the user suppressed: its rule, its line and when, in milliseconds. */
module Suppressions {

  datatype Suppression = Suppression(rule: string, line: string, time: int)
}
