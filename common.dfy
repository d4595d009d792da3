/** Values shared by every service: optional values, results, the exceptions the
    services throw, and raw bytes. */
module Common {

  datatype Option<+T> = None | Some(value: T)

  /** The outcome of an operation that may throw. */
  datatype Result<+T, +E> = Success(value: T) | Failure(error: E)

  /** The exceptions thrown by the services: the three NestJS HTTP exceptions
      they use and a plain JavaScript `Error`. */
  datatype Exception =
    | BadRequest(message: string)
    | Unauthorized(message: string)
    | InternalServerError(message: string)
    | Error(message: string)

  newtype byte = x: int | 0 <= x < 256

  type Bytes = seq<byte>

  /** JavaScript truthiness of a string that may be `undefined`: present and non-empty. */
  predicate Truthy(s: Option<string>)
  {
    s.Some? && s.value != ""
  }

  /** `s || fallback` for a string that may be `undefined`. */
  function OrElse(s: Option<string>, fallback: string): string
  {
    if Truthy(s) then s.value else fallback
  }

  /** The positions below `n` at which `ok` holds, in increasing order: which
      items of a batch survive a loop that skips the others. */
  function Positions(ok: nat -> bool, n: nat): (ix: seq<nat>)
    ensures |ix| <= n
  {
    if n == 0 then [] else Positions(ok, n - 1) + (if ok(n - 1) then [n - 1] else [])
  }

  /** The positions lie below `n` and are ones where `ok` holds. */
  lemma {:induction false} PositionsHold(ok: nat -> bool, n: nat)
    ensures forall j :: 0 <= j < |Positions(ok, n)| ==> Positions(ok, n)[j] < n && ok(Positions(ok, n)[j])
  {
    if n > 0 {
      PositionsHold(ok, n - 1);
      var prev := Positions(ok, n - 1);
      var ix := Positions(ok, n);
      assert ix == prev + (if ok(n - 1) then [n - 1] else []);
      forall j | 0 <= j < |ix|
        ensures ix[j] < n && ok(ix[j])
      {
        if j < |prev| {
          assert ix[j] == prev[j];
        }
      }
    }
  }

  /** The positions are listed in increasing order, each once. */
  lemma {:induction false} PositionsAscend(ok: nat -> bool, n: nat)
    ensures forall j, j' :: 0 <= j < j' < |Positions(ok, n)| ==> Positions(ok, n)[j] < Positions(ok, n)[j']
  {
    if n > 0 {
      PositionsAscend(ok, n - 1);
      PositionsHold(ok, n - 1);
      var prev := Positions(ok, n - 1);
      var ix := Positions(ok, n);
      assert ix == prev + (if ok(n - 1) then [n - 1] else []);
      forall j, j' | 0 <= j < j' < |ix|
        ensures ix[j] < ix[j']
      {
        assert ix[j] == prev[j];
        if j' < |prev| {
          assert ix[j'] == prev[j'];
        }
      }
    }
  }

  /** Every position below `n` where `ok` holds is listed. */
  lemma {:induction false} PositionsComplete(ok: nat -> bool, n: nat)
    ensures forall k :: 0 <= k < n && ok(k) ==> k in Positions(ok, n)
  {
    if n > 0 {
      PositionsComplete(ok, n - 1);
      var prev := Positions(ok, n - 1);
      var ix := Positions(ok, n);
      assert ix == prev + (if ok(n - 1) then [n - 1] else []);
      forall k | 0 <= k < n && ok(k)
        ensures k in ix
      {
        if k < n - 1 {
          assert k in prev;
        } else {
          assert ix[|ix| - 1] == k;
        }
      }
    }
  }
}
