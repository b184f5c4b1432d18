/** Shared vocabulary of the lending core: hashes, addresses, lending orders,
    lending trades and the secondary (SDK) store that mirrors them. */
module Types {

  newtype byte = x: int | 0 <= x < 256

  const U64Modulus: int := 0x1_0000_0000_0000_0000

  /** An unsigned 64-bit value (`uint64` in the program). */
  type u64 = x: int | 0 <= x < U64Modulus

  /** A 32-byte hash; order hashes, trade hashes and transaction hashes all use it. */
  type Hash = s: seq<byte> | |s| == 32 witness ZeroHash

  /** A 20-byte account or token address. */
  type Address = s: seq<byte> | |s| == 20 witness ZeroAddress

  const ZeroHash: seq<byte> := seq(32, _ => 0 as byte)
  const ZeroAddress: seq<byte> := seq(20, _ => 0 as byte)

  /** A timestamp; 0 stands for Go's zero `time.Time` (the one `IsZero` reports). */
  type Time = int

  datatype Option<T> = None | Some(value: T)

  datatype Status = New | Open | PartialFilled | Filled | Cancelled | Reject

  datatype Side = Borrow | Invest

  /** The order type. The program keeps it as a string and tests it only
      against the limit and the market constants; `Other` is every other
      value, which takes neither branch. */
  datatype OrderType = Limit | Market | Other

  datatype Signature = Signature(v: byte, r: Hash, s: Hash)

  /** A lending order as the secondary store keeps it. */
  datatype LendingItem = LendingItem(
    hash: Hash,
    lendingId: u64,
    userAddress: Address,
    relayer: Address,
    lendingToken: Address,
    collateralToken: Address,
    quantity: nat,
    interest: nat,
    filledAmount: nat,
    term: u64,
    side: Side,
    orderType: OrderType,
    status: Status,
    signature: Signature,
    nonce: int,
    createdAt: Time,
    updatedAt: Time,
    txHash: Hash)

  /** One match between a taker and a maker order. */
  datatype LendingTrade = LendingTrade(
    hash: Hash,
    txHash: Hash,
    takerOrderHash: Hash,
    makerOrderHash: Hash,
    borrower: Address,
    investor: Address,
    amount: nat,
    interest: nat,
    term: u64,
    borrowingFee: nat,
    investingFee: nat,
    createdAt: Time,
    updatedAt: Time)

  /** Records of the secondary store are found by their own hash. */
  type Items = m: map<Hash, LendingItem> | forall h :: h in m ==> m[h].hash == h witness map[]

  type Trades = m: map<Hash, LendingTrade> | forall h :: h in m ==> m[h].hash == h witness map[]

  /** The secondary (SDK) store: lending items and lending trades. */
  datatype Store = Store(items: Items, trades: Trades)
}
