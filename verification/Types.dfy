/** Vocabulary shared by the engine, the gateway and the market-data stream. */
module Types {

  /** "No slot": the end of an intrusive list. */
  const NULL: nat := 0xFFFF_FFFF
  /** "No price": an empty side of a book. */
  const NO_PRICE: int := -1
  const TWO32: nat := 0x1_0000_0000
  const TWO64: nat := 0x1_0000_0000_0000_0000

  type U16 = x: int | 0 <= x < 0x1_0000
  type U32 = x: int | 0 <= x < 0x1_0000_0000
  type U64 = x: int | 0 <= x < 0x1_0000_0000_0000_0000
  type I64 = x: int | -0x8000_0000_0000_0000 <= x < 0x8000_0000_0000_0000

  datatype Option<+T> = None | Some(value: T)

  datatype Side = Buy | Sell {
    function Opposite(): Side {
      if this == Buy then Sell else Buy
    }
  }

  datatype OrderType = Limit | Market
  datatype Tif = GTC | IOC

  datatype Reason =
    | BadSymbol | BadPrice | BadQty | BookFull | UnknownOrder | NotOwner | BadSeq | BadMessage

  /** One value for each side of a book. */
  datatype PerSide<T> = PerSide(buy: T, sell: T) {
    function Get(s: Side): T {
      if s == Buy then buy else sell
    }

    function Put(s: Side, x: T): PerSide<T> {
      if s == Buy then PerSide(x, sell) else PerSide(buy, x)
    }
  }

  datatype TopOfBook = TopOfBook(bid: int, ask: int, bidQty: nat, askQty: nat)
  const EMPTY_TOP := TopOfBook(NO_PRICE, NO_PRICE, 0, 0)

  datatype Command =
    | New(session: U32, tag: U64, symbol: U16, side: Side, otype: OrderType, tif: Tif, price: I64, qty: U32)
    | Cancel(session: U32, tag: U64, id: U64)
    | Replace(session: U32, tag: U64, id: U64, price: I64, qty: U32)

  /** Everything about an order except its place in the intrusive lists. */
  datatype Order = Order(id: nat, tag: U64, session: U32, symbol: nat, side: Side,
                         otype: OrderType, tif: Tif, price: int, qty: U32)

  datatype Event =
    | Accepted(order: Order)
    | Rejected(session: U32, tag: U64, id: nat, symbol: nat, reason: Reason)
    | Fill(order: Order, maker: bool, price: int, qty: nat)
    | Cancelled(order: Order)
    | Replaced(order: Order)
    | Trade(symbol: nat, side: Side, price: int, qty: nat)
    | Top(symbol: nat, top: TopOfBook)

  function Min(a: nat, b: nat): (r: nat) {
    if a <= b then a else b
  }

  lemma Assoc<T>(a: seq<T>, b: seq<T>, c: seq<T>)
    ensures a + b + c == a + (b + c)
  {
  }

  lemma TailConcat<T>(a: seq<T>, b: seq<T>)
    requires a != []
    ensures (a + b)[1..] == a[1..] + b && (a + b)[0] == a[0]
  {
  }

  lemma Shift<T>(a: seq<T>, b: seq<T>)
    requires b != []
    ensures a + [b[0]] + b[1..] == a + b
  {
  }
}
