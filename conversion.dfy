/**
 The decision `convert` takes for one click: validate the amount and the two
 selections, ask the convert endpoint, and on a successful reply build the
 record that the history receives.
 */
module Conversion {
  import opened Wrappers
  import opened Numbers
  import opened Storage

  const InvalidAmount: string := "Informe um valor válido."
  const InvalidCurrencies: string := "Selecione moedas válidas."
  const ConversionFailed: string := "Não foi possível converter. Verifique sua conexão ou tente novamente."

  /** The reply's `info` object; `rate` is None when the field is absent. */
  datatype RateInfo = RateInfo(rate: Option<Num>)

  /** The outcome of `fetchJson` on the convert endpoint: a transport, status or
      parse failure; a falsy body (such as `null`); or a body with its `success`
      flag (None when absent), `Number(data.result)` and its `info` object. */
  datatype ConvertReply =
    | FetchFailed
    | NoData
    | Data(success: Option<bool>, result: Num, info: Option<RateInfo>)

  /** The request `convert` sends: the query parameters of the convert URL. */
  datatype Query = Query(from: string, to: string, amount: Num)

  /** What one call of `convert` amounts to. */
  datatype Outcome = Rejected(message: string) | Failed | Converted(entry: Record)

  /** The checks made before any request: the amount first, then the selections. */
  function Validate(amount: Num, from: string, to: string): (problem: Option<string>)
    ensures problem.Some? ==> problem.value == InvalidAmount || problem.value == InvalidCurrencies
    ensures problem == Some(InvalidCurrencies) ==> !IsNaN(amount) && !IsNegative(amount)
  {
    if IsNaN(amount) || IsNegative(amount) then Some(InvalidAmount)
    else if from == "" || to == "" then Some(InvalidCurrencies)
    else None
  }

  /** Whether the reply counts as a success: `!data || data.success === false` throws. */
  predicate Succeeded(reply: ConvertReply)
    ensures Succeeded(reply) ==> reply.Data?
    ensures reply.Data? && reply.success == None ==> Succeeded(reply)
  {
    reply.Data? && reply.success != Some(false)
  }

  /** The rate recorded: the reply's `info.rate` when it is truthy, otherwise
      `converted / amount`. */
  function RateOf(amount: Num, converted: Num, info: Option<RateInfo>): (rate: Num)
    ensures rate == Div(converted, amount) || (info.Some? && info.value.rate == Some(rate) && Truthy(rate))
    ensures info.None? ==> rate == Div(converted, amount)
  {
    if info.Some? && info.value.rate.Some? && Truthy(info.value.rate.value) then info.value.rate.value
    else Div(converted, amount)
  }

  /** `convert` for the given parsed amount, selections, reply and clock reading. */
  function Attempt(amount: Num, from: string, to: string, reply: ConvertReply, now: int): (o: Outcome)
    ensures o.Rejected? <==> Validate(amount, from, to).Some?
    ensures o.Converted? <==> Validate(amount, from, to) == None && Succeeded(reply)
  {
    match Validate(amount, from, to)
    case Some(message) => Rejected(message)
    case None =>
      if Succeeded(reply) then
        Converted(Record(now, from, to, amount, reply.result, RateOf(amount, reply.result, reply.info)))
      else
        Failed
  }

  /** The message the error region shows afterwards, None when it is hidden,
      given the store before the call. After a success `addHistory` runs
      `renderHistory`, and when that throws on a record whose rate is not a
      finite number, the catch of `convert` shows the generic message. */
  ghost function ErrorShown(outcome: Outcome, before: Store): (shown: Option<string>)
    ensures shown == None <==> outcome.Converted? && Renderable(Pushed(ReadHistory(before), outcome.entry))
    ensures outcome.Rejected? ==> shown == Some(outcome.message)
  {
    match outcome
    case Rejected(message) => Some(message)
    case Failed => Some(ConversionFailed)
    case Converted(entry) =>
      if Renderable(Pushed(ReadHistory(before), entry)) then None else Some(ConversionFailed)
  }

  /** The same, for a history renderer that copes with a missing rate: a
      success never shows an error. */
  function ToleratedErrorShown(outcome: Outcome): (shown: Option<string>)
    ensures shown == None <==> outcome.Converted?
    ensures outcome.Rejected? ==> shown == Some(outcome.message)
  {
    match outcome
    case Rejected(message) => Some(message)
    case Failed => Some(ConversionFailed)
    case Converted(_) => None
  }

  /** A NaN or negative amount is refused with the amount message, before the
      selections are looked at, and no reply can change that. */
  lemma BadAmountIsRejected(amount: Num, from: string, to: string, reply: ConvertReply, now: int)
    requires IsNaN(amount) || IsNegative(amount)
    ensures Attempt(amount, from, to, reply, now) == Rejected(InvalidAmount)
  {
  }

  /** A valid amount with a missing selection is refused with the currency message. */
  lemma MissingCurrencyIsRejected(amount: Num, from: string, to: string, reply: ConvertReply, now: int)
    requires !IsNaN(amount) && !IsNegative(amount)
    requires from == "" || to == ""
    ensures Attempt(amount, from, to, reply, now) == Rejected(InvalidCurrencies)
  {
  }

  /** Validation passes exactly for a non-NaN, non-negative amount and two
      selections; zero and plus infinity are accepted. */
  lemma ValidationAccepts(amount: Num, from: string, to: string)
    ensures Validate(amount, from, to) == None <==>
      (amount == PosInf || (amount.Finite? && amount.value >= 0.0)) && from != "" && to != ""
  {
  }

  /** When validation refuses, the reply is never consulted: the outcome is the
      same whatever the network would have answered. */
  lemma RejectionIgnoresReply(amount: Num, from: string, to: string, r1: ConvertReply, r2: ConvertReply, now: int)
    requires Validate(amount, from, to).Some?
    ensures Attempt(amount, from, to, r1, now) == Attempt(amount, from, to, r2, now)
    ensures Attempt(amount, from, to, r1, now).Rejected?
  {
  }

  /** After validation, an unreachable endpoint, a falsy body or `success: false`
      all end in the generic error; any other body is a conversion of the
      selected pair for the given amount, stamped with the clock reading. A
      conversion with a finite rate into a renderable history hides the error
      region; one with a NaN or infinite rate shows the generic error beside
      the result, whatever the history held. */
  lemma ReplyDecidesAfterValidation(amount: Num, from: string, to: string, reply: ConvertReply, now: int, before: Store)
    requires Validate(amount, from, to) == None
    ensures var o := Attempt(amount, from, to, reply, now);
      && (o.Failed? <==> (reply.FetchFailed? || reply.NoData? || reply.success == Some(false)))
      && (o.Converted? ==>
            o.entry.ts == now && o.entry.from == from && o.entry.to == to &&
            o.entry.amount == amount && o.entry.converted == reply.result)
      && (o.Failed? ==> ErrorShown(o, before) == Some(ConversionFailed))
      && (o.Converted? && o.entry.rate.Finite? && Renderable(ReadHistory(before)) ==> ErrorShown(o, before) == None)
      && (o.Converted? && !o.entry.rate.Finite? ==> ErrorShown(o, before) == Some(ConversionFailed))
  {
    var o := Attempt(amount, from, to, reply, now);
    if o.Converted? {
      if o.entry.rate.Finite? && Renderable(ReadHistory(before)) {
        RenderableAfterPush(ReadHistory(before), o.entry);
      }
      assert Pushed(ReadHistory(before), o.entry)[0] == o.entry;
    }
  }

  /** A truthy `info.rate` is recorded as it is, with no relation to the result checked. */
  lemma ReplyRateIsTaken(amount: Num, converted: Num, rate: Num)
    requires Truthy(rate)
    ensures RateOf(amount, converted, Some(RateInfo(Some(rate)))) == rate
  {
  }

  /** A falsy or missing rate is derived from the result: for a finite positive
      amount and a finite result, amount times rate gives the result back. A zero
      rate in the reply falls through to the derived value. */
  lemma DerivedRateReproducesResult(amount: Num, converted: Num, info: Option<RateInfo>)
    requires info.None? || info.value.rate.None? || !Truthy(info.value.rate.value)
    requires amount.Finite? && amount.value > 0.0 && converted.Finite?
    ensures RateOf(amount, converted, info).Finite?
    ensures amount.value * RateOf(amount, converted, info).value == converted.value
  {
  }

  /** An amount of zero is accepted; without a truthy reply rate its recorded
      rate is not a finite number (NaN for a zero result). */
  lemma ZeroAmountHasNoFiniteDerivedRate(converted: Num, info: Option<RateInfo>)
    requires info.None? || info.value.rate.None? || !Truthy(info.value.rate.value)
    ensures !RateOf(Finite(0.0), converted, info).Finite?
    ensures converted == Finite(0.0) ==> RateOf(Finite(0.0), converted, info).NaN?
  {
  }

  /** An accepted amount of 0 with no truthy reply rate is a success whose rate
      is not finite; its record makes `renderHistory` throw, so the generic error
      is shown beside the result. */
  lemma ZeroAmountShowsErrorAfterSuccess(from: string, to: string, converted: Num, info: Option<RateInfo>, now: int, before: Store)
    requires from != "" && to != ""
    requires info.None? || info.value.rate.None? || !Truthy(info.value.rate.value)
    ensures var o := Attempt(Finite(0.0), from, to, Data(None, converted, info), now);
      o.Converted? && !o.entry.rate.Finite? && ErrorShown(o, before) == Some(ConversionFailed)
  {
    var o := Attempt(Finite(0.0), from, to, Data(None, converted, info), now);
    ZeroAmountHasNoFiniteDerivedRate(converted, info);
    assert Pushed(ReadHistory(before), o.entry)[0] == o.entry;
  }

  /** With a renderer that copes with a missing rate, every success hides the
      error region, and it agrees with the code whenever the history renders. */
  lemma ToleratedSuccessShowsNoError(outcome: Outcome, before: Store)
    ensures outcome.Converted? ==> ToleratedErrorShown(outcome) == None
    ensures outcome.Converted? && Renderable(Pushed(ReadHistory(before), outcome.entry)) ==>
      ToleratedErrorShown(outcome) == ErrorShown(outcome, before)
    ensures !outcome.Converted? ==> ToleratedErrorShown(outcome) == ErrorShown(outcome, before)
  {
  }

  /** 100 USD to BRL with result 500: recorded at rate 5, whether the reply
      supplies `info.rate` or leaves it out. */
  lemma HundredDollarsScenario(now: int, info: Option<RateInfo>)
    requires info == None || info == Some(RateInfo(Some(Finite(5.0))))
    ensures Attempt(Finite(100.0), "USD", "BRL", Data(None, Finite(500.0), info), now)
      == Converted(Record(now, "USD", "BRL", Finite(100.0), Finite(500.0), Finite(5.0)))
  {
    if info == None {
      assert Div(Finite(500.0), Finite(100.0)) == Finite(5.0);
    }
  }
}
