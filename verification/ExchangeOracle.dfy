/**
 The exchange as an oracle: any call may fail, and every call is recorded with its answer.
 */
module ExchangeOracle {
  import opened Wrappers

  /** How a request to close a whole position ends. */
  datatype CloseAnswer = Accepted | ReportedFailed | NoPosition | Raised

  datatype Call =
    | CancelStop(symbol: string, id: string, ok: bool)
    | MoveStop(symbol: string, price: real, ok: bool)
    | VerifyStop(symbol: string, price: real, ok: bool)
    | PlaceProtection(symbol: string, stop: real, tps: seq<real>, ok: bool)
    | CloseAll(symbol: string, answer: CloseAnswer)
    | CloseSize(symbol: string, size: real, ok: bool)

  class Exchange {
    ghost var calls: seq<Call>

    constructor ()
      ensures calls == []
    {
      calls := [];
    }

    method Cancel(symbol: string, id: string) returns (ok: bool)
      modifies this
      ensures calls == old(calls) + [CancelStop(symbol, id, ok)]
    {
      ok := *;
      calls := calls + [CancelStop(symbol, id, ok)];
    }

    /** The order id of the new stop, empty when the answer names none; None when the call raised. */
    method Move(symbol: string, price: real) returns (order: Option<string>)
      modifies this
      ensures calls == old(calls) + [MoveStop(symbol, price, order.Some?)]
    {
      order := *;
      calls := calls + [MoveStop(symbol, price, order.Some?)];
    }

    method Verify(symbol: string, price: real) returns (ok: bool)
      modifies this
      ensures calls == old(calls) + [VerifyStop(symbol, price, ok)]
    {
      ok := *;
      calls := calls + [VerifyStop(symbol, price, ok)];
    }

    method Place(symbol: string, stop: real, tps: seq<real>) returns (order: Option<string>)
      modifies this
      ensures calls == old(calls) + [PlaceProtection(symbol, stop, tps, order.Some?)]
    {
      order := *;
      calls := calls + [PlaceProtection(symbol, stop, tps, order.Some?)];
    }

    method ClosePosition(symbol: string) returns (answer: CloseAnswer)
      modifies this
      ensures calls == old(calls) + [CloseAll(symbol, answer)]
    {
      answer := *;
      calls := calls + [CloseAll(symbol, answer)];
    }

    /** `badCall` when the client rejected the arguments themselves. */
    method CloseQuantity(symbol: string, size: real) returns (ok: bool, badCall: bool)
      modifies this
      ensures calls == old(calls) + [CloseSize(symbol, size, ok)] && (ok ==> !badCall)
    {
      ok := *;
      badCall := *;
      badCall := badCall && !ok;
      calls := calls + [CloseSize(symbol, size, ok)];
    }
  }
}
