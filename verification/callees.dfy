/** The callee lists stored with each function: duplicates removed, and a
    call reported both as external and as library call kept only as a
    library call. */
module Callees {
  import opened Common
  import opened Model

  /** The elements of `s` that are not in `excluded`, in order. */
  function Without<T(==,!new)>(s: seq<T>, excluded: set<T>): (r: seq<T>)
    ensures forall x :: x in r <==> x in s && x !in excluded
    ensures |r| <= |s|
  {
    if |s| == 0 then []
    else if s[0] in excluded then Without(s[1..], excluded)
    else [s[0]] + Without(s[1..], excluded)
  }

  /** The call names of one function, as the analyser reports them. */
  datatype CallSites = CallSites(
    internalCalls: seq<string>,
    libraryCalls: seq<string>,
    externalCalls: seq<string>,
    lowLevelCalls: seq<string>)

  /** Each list keeps one copy of every name; the list order of the source
      follows Python set iteration and is not specified, the model keeps
      first occurrences. */
  function GetCallees(calls: CallSites): (r: FunctionCallees)
    ensures forall n :: n in r.internalCallees <==> n in calls.internalCalls
    ensures forall n :: n in r.libraryCallees <==> n in calls.libraryCalls
    ensures forall n :: n in r.externalCallees <==> n in calls.externalCalls && n !in calls.libraryCalls
    ensures Distinct(r.internalCallees) && Distinct(r.libraryCallees) && Distinct(r.externalCallees)
    ensures forall n :: n in r.externalCallees ==> n !in r.libraryCallees
    ensures r.hasLowLevelCalls <==> |calls.lowLevelCalls| > 0
  {
    var library := set n | n in calls.libraryCalls;
    FunctionCallees(
      Dedup(calls.internalCalls),
      Dedup(Without(calls.externalCalls, library)),
      Dedup(calls.libraryCalls),
      |calls.lowLevelCalls| > 0)
  }
}
