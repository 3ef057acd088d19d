/** Log sequence numbers: a log file number and a byte offset in it, compared
    file first, as WiredTiger's `__wt_log_cmp` does. */
module Lsns {
  datatype Lsn = Lsn(file: nat, offset: nat)

  /** `__wt_log_cmp(a, b) < 0`. */
  predicate Below(a: Lsn, b: Lsn) {
    a.file < b.file || (a.file == b.file && a.offset < b.offset)
  }

  /** `__wt_log_cmp(a, b) <= 0`. */
  predicate AtMost(a: Lsn, b: Lsn) {
    !Below(b, a)
  }
}
