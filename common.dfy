/**
 * Shared vocabulary of the backend: document identifiers, route parameters,
 * the outcome of one Express middleware, and HTTP responses.
 */
module Common {

  datatype Option<+T> = None | Some(value: T)

  /** A MongoDB ObjectId, reduced to an opaque serial number compared by value. */
  datatype ObjectId = ObjectId(serial: nat)

  /**
   * A route or query parameter that should hold an ObjectId. `Types.ObjectId.isValid`
   * holds exactly for `WellFormed`; an absent parameter (`undefined`) is not valid either.
   */
  datatype IdParam = Absent | Malformed(text: string) | WellFormed(id: ObjectId)

  predicate IsValidId(p: IdParam) { p.WellFormed? }

  // The HTTP statuses the validators and handlers use.
  const OK: int := 200
  const Created: int := 201
  const BadRequest: int := 400
  const Forbidden: int := 403
  const NotFound: int := 404
  const Conflict: int := 409
  const PayloadTooLarge: int := 413

  /**
   * What one middleware does: call `next()`, answer with an error status, or throw
   * (the source dereferences a null document; Express 4 does not catch the rejection
   * of an async middleware, so no response is sent).
   * `Verdict` is failure-compatible, so a route chain reads `:- A; :- B; Next`.
   */
  datatype Verdict = Next | Respond(status: int) | Throw {
    predicate IsFailure() { !Next? }
    function PropagateFailure(): Verdict requires IsFailure() { this }
  }

  /** The response a route sends: a success status with a body, an error status, or none (a throw). */
  datatype Response<+T> = Reply(status: int, body: T) | Error(status: int) | NoResponse {
    predicate IsSuccess() { Reply? }
  }

  /** The response a route sends when its chain stopped with `v`. */
  function Stopped<T>(v: Verdict): (r: Response<T>)
    requires v.IsFailure()
    ensures v.Respond? ==> r == Error(v.status)
    ensures v.Throw? ==> r == NoResponse
  {
    if v.Respond? then Error(v.status) else NoResponse
  }

  /**
   * `xs.map(f)` where `f` may throw (`None`): the whole map throws as soon as one
   * element does, and otherwise keeps length and order.
   */
  function MapAll<A, B>(xs: seq<A>, f: A -> Option<B>): (r: Option<seq<B>>)
    ensures r.Some? <==> forall i :: 0 <= i < |xs| ==> f(xs[i]).Some?
    ensures r.Some? ==> |r.value| == |xs| && forall i :: 0 <= i < |xs| ==> r.value[i] == f(xs[i]).value
  {
    if xs == [] then Some([])
    else
      var head := f(xs[0]);
      var tail := MapAll(xs[1..], f);
      if head.None? then None
      else if tail.None? then None
      else Some([head.value] + tail.value)
  }

  // ---------------------------------------------------------------------------
  // ObjectId.toString(): the identifier written as lowercase hexadecimal digits.

  predicate IsHexDigit(c: char) { '0' <= c <= '9' || 'a' <= c <= 'f' }

  function HexDigit(d: nat): (c: char)
    requires d < 16
    ensures IsHexDigit(c)
  {
    if d < 10 then ('0' as int + d) as char else ('a' as int + d - 10) as char
  }

  function HexValue(c: char): (d: nat)
    requires IsHexDigit(c)
    ensures d < 16 && HexDigit(d) == c
  {
    if c <= '9' then c as int - '0' as int else c as int - 'a' as int + 10
  }

  /** Hexadecimal digits of `n`, most significant first, without leading zeros. */
  function Hex(n: nat): (s: string)
    ensures |s| > 0
    ensures forall i :: 0 <= i < |s| ==> IsHexDigit(s[i])
    decreases n
  {
    if n < 16 then [HexDigit(n)] else Hex(n / 16) + [HexDigit(n % 16)]
  }

  /** Reads a string of hexadecimal digits back into a number. */
  function ParseHex(s: string): nat
    requires forall i :: 0 <= i < |s| ==> IsHexDigit(s[i])
  {
    if s == [] then 0 else 16 * ParseHex(s[..|s| - 1]) + HexValue(s[|s| - 1])
  }

  lemma {:induction false} HexRoundTrip(n: nat)
    ensures ParseHex(Hex(n)) == n
    decreases n
  {
    if n >= 16 {
      var s := Hex(n);
      assert s[..|s| - 1] == Hex(n / 16);
      HexRoundTrip(n / 16);
    }
  }

  /** The string form of an ObjectId, as `_id.toString()` produces it for a response. */
  function IdString(id: ObjectId): (s: string)
    ensures |s| > 0 && forall i :: 0 <= i < |s| ==> IsHexDigit(s[i])
  {
    Hex(id.serial)
  }

  /** Reading an id back from a string of hexadecimal digits; `None` for any other string. */
  function ParseId(s: string): Option<ObjectId> {
    if forall i :: 0 <= i < |s| ==> IsHexDigit(s[i]) then Some(ObjectId(ParseHex(s))) else None
  }

  /** The string form of an id reads back as that id. */
  lemma IdStringRoundTrip(id: ObjectId)
    ensures ParseId(IdString(id)) == Some(id)
  {
    HexRoundTrip(id.serial);
  }

  /** Distinct documents get distinct string ids in responses. */
  lemma IdStringInjective(a: ObjectId, b: ObjectId)
    ensures IdString(a) == IdString(b) ==> a == b
  {
    HexRoundTrip(a.serial);
    HexRoundTrip(b.serial);
  }
}
