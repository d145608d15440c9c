/** What several parts share: status codes, options, and sequences and sets without repetition. */
module Common {
  datatype Status =
    | Ok
    | NotFound
    | Conflict
    | InvalidArgument
    | Overflow
    | BufferTooSmall
    | BadMagic
    | Corrupt
    | InternalError
    | Failed

  datatype Option<T> = None | Some(value: T)

  ghost predicate Distinct<T(!new)>(s: seq<T>) { forall i, j :: 0 <= i < j < |s| ==> s[i] != s[j] }

  lemma Member<T>(s: set<T>) returns (x: T)
    requires s != {}
    ensures x in s
  {
    x :| x in s;
  }
}
