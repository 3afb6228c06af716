/** The trade form of the simulator page: the cost preview, the ordered
    validation of a trade, the request it sends to the trading backend, and
    the reset of the form after an accepted trade. The HTTP exchange itself
    is not modelled; its outcome is a parameter. */
module SimulatorForm {
  import opened Wrappers
  import Simulator

  /** The backend account every request is made for. */
  const UserId: int := 1

  const BuyEndpoint: string := "http://127.0.0.1:5000/buy"
  const SellEndpoint: string := "http://127.0.0.1:5000/sell"

  /** The body of a trade request. */
  datatype TradeRequest = TradeRequest(userId: int, ticker: string, quantity: int)

  /** The outcome of the validation cascade: three rejections, each shown
      as a notification, or the request to send and where to send it. */
  datatype Validation =
    | InvalidTrade
    | InvalidQuantity
    | InsufficientFunds
    | Send(endpoint: string, request: TradeRequest)

  /** The quantity typed into the form; `None` is the empty field. */
  type QuantityField = Option<int>

  /** The cost preview: price times quantity (an empty field counts as 0)
      when the selected symbol is quoted, else 0. */
  function TotalCost(stocks: seq<Simulator.Stock>, selectedStock: string, quantity: QuantityField): (cost: real)
    ensures Simulator.FindStock(stocks, selectedStock).None? ==> cost == 0.0
    ensures quantity.None? ==> cost == 0.0
    ensures Simulator.FindStock(stocks, selectedStock).Some? && quantity.Some? ==>
      cost == Simulator.FindStock(stocks, selectedStock).value.price * quantity.value as real
  {
    match Simulator.FindStock(stocks, selectedStock)
    case None => 0.0
    case Some(stock) => stock.price * (if quantity.Some? then quantity.value else 0) as real
  }

  function CanAfford(stocks: seq<Simulator.Stock>, balance: real, selectedStock: string, quantity: QuantityField): bool {
    TotalCost(stocks, selectedStock, quantity) <= balance
  }

  /** The checks of the submit handler, in order: a quoted stock and a
      quantity must be chosen; the quantity must be positive; a buy must be
      affordable. A sell is never checked against funds nor, on this side,
      against the shares held. */
  function Validate(stocks: seq<Simulator.Stock>, balance: real, selectedStock: string,
                    quantity: QuantityField, action: Simulator.Action): (v: Validation)
    ensures v == InvalidTrade <==>
      selectedStock == "" || quantity.None? || Simulator.FindStock(stocks, selectedStock).None?
    ensures v == InvalidQuantity <==> v != InvalidTrade && quantity.value <= 0
    ensures v == InsufficientFunds <==>
      && v != InvalidTrade && quantity.value > 0
      && action == Simulator.Buy
      && Simulator.FindStock(stocks, selectedStock).value.price * quantity.value as real > balance
    ensures v.Send? ==>
      && v.request == TradeRequest(UserId, selectedStock, quantity.value)
      && quantity.value > 0
      && v.endpoint == (if action == Simulator.Buy then BuyEndpoint else SellEndpoint)
  {
    if selectedStock == "" || quantity.None? || Simulator.FindStock(stocks, selectedStock).None? then
      InvalidTrade
    else if quantity.value <= 0 then
      InvalidQuantity
    else if action == Simulator.Buy && !CanAfford(stocks, balance, selectedStock, quantity) then
      InsufficientFunds
    else
      var endpoint := if action == Simulator.Buy then BuyEndpoint else SellEndpoint;
      Send(endpoint, TradeRequest(UserId, selectedStock, quantity.value))
  }

  /** Once a quoted stock and a positive quantity are chosen, a buy is sent
      exactly when it is affordable, and a sell is always sent. */
  lemma AffordabilityDecides(stocks: seq<Simulator.Stock>, balance: real, selectedStock: string, quantity: int)
    requires selectedStock != "" && Simulator.FindStock(stocks, selectedStock).Some? && quantity > 0
    ensures Validate(stocks, balance, selectedStock, Some(quantity), Simulator.Buy).Send?
      <==> CanAfford(stocks, balance, selectedStock, Some(quantity))
    ensures Validate(stocks, balance, selectedStock, Some(quantity), Simulator.Sell).Send?
  {
  }

  /** When the execute button is greyed out. */
  predicate ButtonDisabled(stocks: seq<Simulator.Stock>, balance: real, selectedStock: string,
                           quantity: QuantityField, action: Simulator.Action) {
    selectedStock == "" || quantity.None? || (action == Simulator.Buy && !CanAfford(stocks, balance, selectedStock, quantity))
  }

  /** A disabled button never lets a request through; an enabled one rules
      out the funds rejection and leaves the first check failing only for a
      symbol outside the catalogue. The quantity check is not mirrored by
      the button. */
  lemma ButtonAgreesWithChecks(stocks: seq<Simulator.Stock>, balance: real, selectedStock: string,
                               quantity: QuantityField, action: Simulator.Action)
    ensures var v := Validate(stocks, balance, selectedStock, quantity, action);
      && (ButtonDisabled(stocks, balance, selectedStock, quantity, action) ==> !v.Send?)
      && (!ButtonDisabled(stocks, balance, selectedStock, quantity, action) ==>
            && v != InsufficientFunds
            && (v == InvalidTrade <==> Simulator.FindStock(stocks, selectedStock).None?))
  {
  }

  /** An enabled button can still lead to the quantity rejection: a buy of
      zero shares costs nothing and is affordable. */
  lemma EnabledButtonZeroQuantity(stocks: seq<Simulator.Stock>, balance: real, symbol: string)
    requires symbol != "" && Simulator.FindStock(stocks, symbol).Some? && balance >= 0.0
    ensures !ButtonDisabled(stocks, balance, symbol, Some(0), Simulator.Buy)
    ensures Validate(stocks, balance, symbol, Some(0), Simulator.Buy) == InvalidQuantity
  {
  }

  /** What the backend answered, or that no answer arrived. */
  datatype Response = Accepted | Refused(message: Option<string>) | ConnectionError

  /** The notification shown at the end of a submit. */
  datatype Notice =
    | Rejected(reason: Validation)
    | TradeExecuted
    | TradeFailed(description: string)
    | ConnectionFailed

  /** The backend's message, or a generic one when it sent none. */
  function FailureDescription(message: Option<string>): (d: string)
    ensures d != ""
    ensures message.Some? && message.value != "" ==> d == message.value
  {
    if message.Some? && message.value != "" then message.value else "An error occurred."
  }

  /** The form's own state: the chosen stock, the typed quantity and the
      chosen action. */
  class TradeForm {
    var selectedStock: string
    var quantity: QuantityField
    var action: Simulator.Action

    constructor ()
      ensures selectedStock == "" && quantity == None && action == Simulator.Buy
    {
      selectedStock := "";
      quantity := None;
      action := Simulator.Buy;
    }

    /** The submit handler. `refreshed` tells whether the parent's refresh
        callback was called, which happens exactly when a request was sent
        and accepted; only then is the form cleared. */
    method Submit(stocks: seq<Simulator.Stock>, balance: real, response: Response)
      returns (notice: Notice, refreshed: bool)
      modifies this
      ensures var v := Validate(stocks, balance, old(selectedStock), old(quantity), old(action));
        && (!v.Send? ==> notice == Rejected(v))
        && (v.Send? ==> notice == match response
                                  case Accepted => TradeExecuted
                                  case Refused(message) => TradeFailed(FailureDescription(message))
                                  case ConnectionError => ConnectionFailed)
        && (refreshed <==> v.Send? && response == Accepted)
      ensures action == old(action)
      ensures refreshed ==> selectedStock == "" && quantity == None
      ensures !refreshed ==> selectedStock == old(selectedStock) && quantity == old(quantity)
    {
      var v := Validate(stocks, balance, selectedStock, quantity, action);
      refreshed := false;
      if !v.Send? {
        notice := Rejected(v);
        return;
      }
      match response
      case Accepted =>
        notice := TradeExecuted;
        refreshed := true;
        quantity := None;
        selectedStock := "";
      case Refused(message) =>
        notice := TradeFailed(FailureDescription(message));
      case ConnectionError =>
        notice := ConnectionFailed;
    }
  }
}
