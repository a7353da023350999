/** Types shared by every service: the error taxonomy, results, optional
    values and the two status enumerations of the platform. */
module Common {

  /** The exceptions the services throw, one constructor per kind.
      NotFound names the ids that could not be resolved. */
  datatype Error =
    | NotFound(ids: seq<int>)
    | Forbidden
    | Conflict
    | DateError
    | IllegalArgument
    | Duplicate

  datatype Option<+T> = None | Some(value: T) {
    function GetOr(default: T): T {
      match this
      case Some(v) => v
      case None => default
    }
  }

  datatype Result<+T> = Success(value: T) | Failure(error: Error)

  /** A check that either passes or fails with an error. */
  datatype Outcome = Pass | Fail(error: Error)

  /** Lifecycle state of events and comments. */
  datatype State = PENDING | PUBLISHED | CANCELED

  /** Status of a participation request. */
  datatype Status = PENDING | CONFIRMED | REJECTED | CANCELED

  /** Bounds of a Java `long`, the type of every id and counter. */
  const LONG_MIN: int := -0x8000_0000_0000_0000
  const LONG_MAX: int := 0x7FFF_FFFF_FFFF_FFFF

  predicate IsLong(x: int) {
    LONG_MIN <= x <= LONG_MAX
  }

  /** A list without repeated elements. */
  predicate Distinct(s: seq<int>) {
    forall i, j :: 0 <= i < j < |s| ==> s[i] != s[j]
  }

  function SetOf(s: seq<int>): set<int> {
    set x | x in s
  }

  lemma {:induction false} SetOfSize(s: seq<int>)
    ensures |SetOf(s)| <= |s|
  {
    if s != [] {
      SetOfSize(s[1..]);
      assert SetOf(s) == SetOf(s[1..]) + {s[0]};
    }
  }

  /** A user as the user directory hands it to other services. */
  datatype UserShort = UserShort(id: int, name: string)
}
