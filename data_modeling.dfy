/**
 * module2/DataModeling.java: a `User` record whose compact constructor
 * rejects negative ids, and the sealed `TransactionStatus` hierarchy
 * (Payment, Refund, and the non-sealed Dispute with its subclass FraudClaim)
 * dispatched by a pattern-matching switch.
 */
module DataModeling {
  import opened Wrappers

  datatype User = User(username: string, id: int)

  /** Every `User` the compact constructor lets through. */
  type ValidUser = u: User | u.id >= 0 witness User("", 0)

  const NegativeIdMessage: string := "ID cannot be negative"

  /** `new User(username, id)`: `Failure` is the `IllegalArgumentException`. */
  function NewUser(username: string, id: int): (r: Result<ValidUser, string>)
    ensures r.Success? <==> id >= 0
    ensures r.Success? ==> r.value.username == username && r.value.id == id
    ensures r.Failure? ==> r.error == NegativeIdMessage
  {
    if id < 0 then Failure(NegativeIdMessage) else Success(User(username, id))
  }

  /** Record equality is component-wise: two constructions from equal arguments are equal. */
  lemma UsersEqualByValue(name1: string, id1: int, name2: string, id2: int)
    requires NewUser(name1, id1).Success? && NewUser(name2, id2).Success?
    ensures NewUser(name1, id1).value == NewUser(name2, id2).value <==> name1 == name2 && id1 == id2
  {
  }

  /** `main`'s two users are equal; a negative id never yields a user. */
  lemma UserExamples()
    ensures NewUser("alice", 1001).Success?
    ensures NewUser("alice", 1001) == NewUser("alice", 1001)
    ensures NewUser("alice", -1) == Failure(NegativeIdMessage)
  {
  }

  /** The concrete classes of the non-sealed `Dispute` branch that the program declares. */
  datatype DisputeKind = PlainDispute | FraudClaim

  /** `Payment.toString()`. */
  const PaymentText: string := "Payment Processed"

  datatype TransactionStatus = Payment | Refund(amount: real) | Dispute(kind: DisputeKind)

  /** `getClass().getSimpleName()` of a dispute. */
  function SimpleName(kind: DisputeKind): (name: string)
    ensures |name| > 0
  {
    match kind
    case PlainDispute => "Dispute"
    case FraudClaim => "FraudClaim"
  }

  /**
   * A printed line: fixed text, or fixed text followed by the decimal form
   * Java gives a `double` (the formatting of the number is not modelled).
   */
  datatype Line = Text(text: string) | TextThenAmount(prefix: string, amount: real)

  /** `handleTransaction`: the line printed for each variant (the `println` itself is the caller's). */
  function HandleTransaction(tx: TransactionStatus): (line: Line)
    ensures tx.Payment? ==> line == Text("Success: Payment Processed")
    ensures tx.Refund? ==> line == TextThenAmount("Refunding: $", tx.amount)
    ensures tx.Dispute? ==> line == Text("Manual Review: " + SimpleName(tx.kind))
  {
    match tx
    case Payment =>
      assert "Success: " + PaymentText == "Success: Payment Processed";
      Text("Success: " + PaymentText)
    case Refund(amount) => TextThenAmount("Refunding: $", amount)
    case Dispute(kind) => Text("Manual Review: " + SimpleName(kind))
  }

  /** Different transactions print different lines: the dispatch loses nothing. */
  lemma HandleTransactionInjective(tx1: TransactionStatus, tx2: TransactionStatus)
    ensures HandleTransaction(tx1) == HandleTransaction(tx2) <==> tx1 == tx2
  {
  }

  /** A `FraudClaim` is a `Dispute`: it reaches the manual-review branch under its own name. */
  lemma FraudClaimIsReviewed()
    ensures HandleTransaction(Dispute(FraudClaim)) == Text("Manual Review: FraudClaim")
    ensures HandleTransaction(Dispute(PlainDispute)) == Text("Manual Review: Dispute")
  {
  }
}
