/** Small value types shared by every module of the model. */
module Base {

  /** A value that may be absent: SQL NULL, a JavaScript `null`/`undefined`,
      or a falsy request field that the handler replaces by `null`. */
  datatype Option<+T> = None | Some(value: T) {
    function GetOr(default: T): T {
      match this
      case Some(v) => v
      case None => default
    }
  }

  /** A nullable timestamp on an abstract integer clock (NOW() and
      CURRENT_TIMESTAMP are passed in as `now`). */
  datatype Stamp = Null | At(t: int)

  /** Ordering of `ORDER BY ... DESC` on a nullable timestamp: PostgreSQL puts
      NULLs first in a descending order, then larger times before smaller ones.
      `PrecedesDesc(x, y)` says that `x` may be listed before `y`. */
  predicate PrecedesDesc(x: Stamp, y: Stamp) {
    x.Null? || (y.At? && x.t >= y.t)
  }

  /** A JavaScript truthiness test for an optional string body field:
      `undefined`, `null` and `""` are falsy. */
  predicate Truthy(s: Option<string>) {
    s.Some? && s.value != ""
  }

  /** `x || null` on an optional string field. */
  function OrNull(s: Option<string>): (r: Option<string>)
    ensures r.Some? <==> Truthy(s)
    ensures r.Some? ==> r == s
  {
    if Truthy(s) then s else None
  }

  /** Some member of a non-empty set. */
  lemma PickMember<T>(s: set<T>) returns (y: T)
    requires s != {}
    ensures y in s
  {
    y :| y in s;
  }
}
