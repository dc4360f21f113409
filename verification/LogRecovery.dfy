/**
 What a log gives back after a crash that kept some prefix of its bytes.
 */
module LogRecovery {
  import opened Mvcc
  import opened LogFormat
  import opened LogReading
  import opened LogTheorems
  import W = LogFile
  import R = LogReader

  // Reads the first n bytes of a log that a writer wrote: the records that were complete by
  // then, in order, and no report of corruption.
  method Recover(w: W.Writer, n: nat) returns (records: seq<Bytes>, reports: nat)
    requires w.Valid() && n <= |w.dest|
    ensures |records| <= |w.records| && records == w.records[..|records|] && reports == 0
    ensures forall k :: 0 <= k < |w.records| ==> (k < |records| <==> Inside(w.frags, n, k))
    ensures n == |w.dest| ==> records == w.records
  {
    hide Written, Inside, Events, Records, Corruptions;
    ghost var m := ReadBackAnyPrefix(w.crc, w.dest, w.frags, w.records, n);
    var reader := new R.Reader(w.crc, w.dest[..n]);
    records := reader.ReadAll();
    reports := reader.reports;
  }
}
