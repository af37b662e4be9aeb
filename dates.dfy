/**
 * A calendar day as JavaScript's local-time getters give it:
 * `getFullYear()`, `getMonth()` (0 for January to 11 for December) and
 * `getDate()`. The age buckets and the calendar page both read dates this
 * way.
 */
module Dates {

  datatype Date = Date(year: int, month: int, day: int)
}
