/** The HTTP side of a route handler: the response it sends (status, JSON
    body, `Location` header) and the `Location` value built from the
    request URL and a new record's id. */
module Http {

  datatype Option<+T> = None | Some(value: T)

  /** A JSON response body: none (`res.end()`), the `{error: {message}}`
      shape, one serialized record, or an array of them. */
  datatype Body<+V> = Empty | Error(message: string) | One(view: V) | Many(views: seq<V>)

  datatype Response<+V> = Response(status: int, body: Body<V>, location: Option<string>)

  /** What an `.all` middleware does: answer the request itself, or pass a
      value on to the next handler with `next()`. */
  datatype Step<+T, +V> = Respond(response: Response<V>) | Next(value: T)

  /** `res.status(status).json({error: {message}})` */
  function Failure<V>(status: int, message: string): (r: Response<V>)
    ensures r.status == status && r.body.Error? && r.body.message == message
    ensures r.location == None
  {
    Response(status, Error(message), None)
  }

  /** `res.status(204).end()` */
  function NoContent<V>(): (r: Response<V>)
    ensures r.status == 204 && r.body.Empty? && r.location.None?
  {
    Response(204, Empty, None)
  }

  predicate IsDigits(s: string) {
    forall i :: 0 <= i < |s| ==> '0' <= s[i] <= '9'
  }

  function Digit(d: nat): (c: char)
    requires d < 10
    ensures '0' <= c <= '9' && c as int - '0' as int == d
  {
    ('0' as int + d) as char
  }

  /** The decimal numeral of `n`, as a template literal writes an integer. */
  function Decimal(n: nat): (s: string)
    ensures |s| >= 1 && IsDigits(s)
    decreases n
  {
    if n < 10 then [Digit(n)] else Decimal(n / 10) + [Digit(n % 10)]
  }

  /** The number a string of decimal digits denotes. */
  function DigitsValue(s: string): nat
    requires IsDigits(s)
  {
    if s == [] then 0
    else DigitsValue(s[..|s| - 1]) * 10 + (s[|s| - 1] as int - '0' as int)
  }

  /** Reading the numeral back gives the number. */
  lemma {:induction false} DecimalRoundTrip(n: nat)
    ensures DigitsValue(Decimal(n)) == n
  {
    if n >= 10 {
      DecimalRoundTrip(n / 10);
      var s := Decimal(n);
      assert s[..|s| - 1] == Decimal(n / 10);
    }
  }

  /** `s` without its trailing `/` characters. */
  function TrimTrailingSlashes(s: string): (t: string)
    ensures t <= s
    ensures t == [] || t[|t| - 1] != '/'
    ensures forall i :: |t| <= i < |s| ==> s[i] == '/'
  {
    if s != [] && s[|s| - 1] == '/' then TrimTrailingSlashes(s[..|s| - 1]) else s
  }

  /** `path.posix.join(originalUrl, `/${id}`)`: the collection URL, the
      separators between the two parts collapsed to one `/`, then the id. */
  function Location(originalUrl: string, id: nat): string {
    TrimTrailingSlashes(originalUrl) + "/" + Decimal(id)
  }

  /** The text after the last `/` of `s` (all of `s` if it has none). */
  function LastSegment(s: string): (seg: string)
    ensures forall i :: 0 <= i < |seg| ==> seg[i] != '/'
    ensures |seg| <= |s| && seg == s[|s| - |seg|..]
  {
    if s == [] || s[|s| - 1] == '/' then []
    else LastSegment(s[..|s| - 1]) + [s[|s| - 1]]
  }

  /** The record id a client reads off the end of a `Location` header. */
  function IdInLocation(location: string): Option<nat> {
    var seg := LastSegment(location);
    if seg != [] && IsDigits(seg) then Some(DigitsValue(seg)) else None
  }

  lemma {:induction false} LastSegmentAfterSlash(prefix: string, seg: string)
    requires forall i :: 0 <= i < |seg| ==> seg[i] != '/'
    ensures LastSegment(prefix + "/" + seg) == seg
  {
    var s := prefix + "/" + seg;
    if seg != [] {
      var shorter := seg[..|seg| - 1];
      LastSegmentAfterSlash(prefix, shorter);
      assert s[..|s| - 1] == prefix + "/" + shorter;
    }
  }

  /** The `Location` header names the id it was built from, whatever the
      request URL. */
  lemma LocationNamesId(originalUrl: string, id: nat)
    ensures IdInLocation(Location(originalUrl, id)) == Some(id)
  {
    LastSegmentAfterSlash(TrimTrailingSlashes(originalUrl), Decimal(id));
    DecimalRoundTrip(id);
  }
}
