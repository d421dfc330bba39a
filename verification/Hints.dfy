/** Queueing hints: whether an event is worth retrying a rejected pod for. */
module Hints {

  datatype Hint = Queue | QueueSkip

  datatype Change<T> = Added(modified: T) | Updated(original: T, modified: T) | Deleted(original: T) {
    predicate ForAll(p: T -> bool) {
      (Deleted? || p(modified)) && (Added? || p(original))
    }
  }
}
