/** The records the marketplace server keeps (users, products, transactions),
    the fixed strings its handlers compare against, and the pure rules the
    mutating handlers apply: branch routing, pricing of a new order, and the
    status writes on stored records. */
module Market {
  import opened Wrappers
  import opened Seqs

  /** A document identity (a Mongo ObjectId). */
  type Id = nat

  datatype Role = Root | BranchAdmin | Agent | Customer

  /** Products are only ever written as 'Available' (the schema default) or 'Booked'. */
  datatype ProductStatus = Available | Booked

  datatype User = User(id: Id, email: string, passwordHash: string, role: Role, branchLocation: string)

  datatype Product = Product(
    id: Id, name: string, price: real, category: string, brand: string,
    seller: Id, status: ProductStatus, branchOrigin: string, createdAt: int)

  /** A transaction's `method` (here `paymentMethod`) and `status` are free strings: the server stores
      whatever the client sent. */
  datatype Transaction = Transaction(
    id: Id, product: Id, buyer: Id, seller: Id, paymentMethod: string,
    basePrice: real, agentFee: real, totalPrice: real,
    branchLocation: string, status: string, createdAt: int)

  /** Why a handler answers with an error instead of its normal response. */
  datatype Refusal =
    | EmailExists     // register: the e-mail is already in the user store
    | SelfPurchase    // create transaction: the buyer is the product's seller
    | MissingRecord   // the handler dereferences a lookup that found nothing and throws
    | InvalidUser     // register: the schema's `required` e-mail is empty, so the insert is rejected

  const CodAgent := "cod_agent"
  const Pending := "Pending"
  const Assigned := "Assigned"
  const Completed := "Completed"
  const Rejected := "Rejected"

  const Jakarta := "Jakarta"
  const Bandung := "Bandung"
  const Surabaya := "Surabaya"

  /** The branch a newly registered user is routed to, from the city they gave:
      start with Jakarta and overwrite it when the city is in one of two lists. */
  function BranchFor(location: string): (branch: string)
    ensures location == "Bandung" || location == "Yogyakarta" ==> branch == Bandung
    ensures location == "Surabaya" || location == "Bali" ==> branch == Surabaya
    ensures location !in ["Bandung", "Yogyakarta", "Surabaya", "Bali"] ==> branch == Jakarta
    ensures branch in [Jakarta, Bandung, Surabaya]
  {
    var branch := Jakarta;
    var branch := if location in ["Bandung", "Yogyakarta"] then Bandung else branch;
    var branch := if location in ["Surabaya", "Bali"] then Surabaya else branch;
    branch
  }

  /** Whether some stored user already has this e-mail (`User.findOne({email})`). */
  predicate EmailTaken(users: seq<User>, email: string)
    ensures EmailTaken(users, email) <==> exists u :: u in users && u.email == email
  {
    IndexWhere(users, (u: User) => u.email == email).Some?
  }

  /** `Product.findById`. */
  function FindProduct(ps: seq<Product>, id: Id): (r: Option<Product>)
    ensures r.Some? <==> exists p :: p in ps && p.id == id
    ensures r.Some? ==> r.value in ps && r.value.id == id
  {
    match IndexWhere(ps, (p: Product) => p.id == id)
    case None => None
    case Some(i) => Some(ps[i])
  }

  /** `Transaction.findById`. */
  function FindTransaction(txs: seq<Transaction>, id: Id): (r: Option<Transaction>)
    ensures r.Some? <==> exists t :: t in txs && t.id == id
    ensures r.Some? ==> r.value in txs && r.value.id == id
  {
    match IndexWhere(txs, (t: Transaction) => t.id == id)
    case None => None
    case Some(i) => Some(txs[i])
  }

  /** The transaction the order-creation handler stores for buyer `buyer` of
      product `p`: the price and the branch are copied from the product, an agent
      fee of five per cent is added only for method `cod_agent`, and the order
      starts out `Pending`. Prices are exact reals here, where the server
      computes `price * 0.05` in floating point. */
  function NewTransaction(p: Product, buyer: Id, paymentMethod: string, id: Id, now: int): (t: Transaction)
    ensures t.id == id && t.product == p.id && t.buyer == buyer && t.paymentMethod == paymentMethod
    ensures t.seller == p.seller && t.branchLocation == p.branchOrigin
    ensures t.basePrice == p.price
    ensures t.agentFee == (if paymentMethod == CodAgent then p.price * 5.0 / 100.0 else 0.0)
    ensures t.totalPrice == t.basePrice + t.agentFee
    ensures t.status == Pending && t.createdAt == now
  {
    var fee := if paymentMethod == CodAgent then p.price * 0.05 else 0.0;
    Transaction(id, p.id, buyer, p.seller, paymentMethod, p.price, fee, p.price + fee,
                p.branchOrigin, Pending, now)
  }

  /** The product store after `Product.findByIdAndUpdate(id, {status: st})`
      (or `product.status = st; product.save()`): the product with that id, if
      any, gets the new status, and nothing else changes. */
  function SetProductStatus(ps: seq<Product>, id: Id, st: ProductStatus): (r: seq<Product>)
    ensures |r| == |ps|
    ensures forall j :: 0 <= j < |ps| && ps[j].id == id ==> r[j] == ps[j].(status := st)
    ensures forall j :: 0 <= j < |ps| && ps[j].id != id ==> r[j] == ps[j]
  {
    seq(|ps|, j requires 0 <= j < |ps| => if ps[j].id == id then ps[j].(status := st) else ps[j])
  }

  /** The transaction store after `Transaction.findByIdAndUpdate(id, {status})`:
      the transaction with that id, if any, takes the requested status whatever
      its previous one was, and nothing else changes. */
  function SetTransactionStatus(txs: seq<Transaction>, id: Id, status: string): (r: seq<Transaction>)
    ensures |r| == |txs|
    ensures forall j :: 0 <= j < |txs| && txs[j].id == id ==> r[j] == txs[j].(status := status)
    ensures forall j :: 0 <= j < |txs| && txs[j].id != id ==> r[j] == txs[j]
  {
    seq(|txs|, j requires 0 <= j < |txs| => if txs[j].id == id then txs[j].(status := status) else txs[j])
  }

  /** Ids are unique within a store, as Mongo's `_id` index guarantees. */
  ghost predicate UniqueProductIds(ps: seq<Product>)
  {
    forall i, j :: 0 <= i < j < |ps| ==> ps[i].id != ps[j].id
  }

  ghost predicate UniqueTransactionIds(txs: seq<Transaction>)
  {
    forall i, j :: 0 <= i < j < |txs| ==> txs[i].id != txs[j].id
  }

  /** The invariant of the whole store: ids unique and below the next fresh id,
      e-mails unique (the schema's `unique: true` on `email`). */
  ghost predicate WellFormed(users: seq<User>, ps: seq<Product>, txs: seq<Transaction>, nextId: Id)
  {
    && (forall i, j :: 0 <= i < j < |users| ==> users[i].id != users[j].id && users[i].email != users[j].email)
    && UniqueProductIds(ps)
    && UniqueTransactionIds(txs)
    && (forall u :: u in users ==> u.id < nextId)
    && (forall p :: p in ps ==> p.id < nextId)
    && (forall t :: t in txs ==> t.id < nextId)
  }

  /** Booking a product that was available and then rejecting the order
      (which releases it) gives back the product store exactly as it was. */
  lemma BookThenReleaseRestores(ps: seq<Product>, id: Id)
    requires forall p :: p in ps && p.id == id ==> p.status == Available
    ensures SetProductStatus(SetProductStatus(ps, id, Booked), id, Available) == ps
  {
  }

  /** A status write touches at most one product when ids are unique, and
      keeps ids unique. */
  lemma SetProductStatusAt(ps: seq<Product>, i: nat, st: ProductStatus)
    requires UniqueProductIds(ps) && i < |ps|
    ensures SetProductStatus(ps, ps[i].id, st) == ps[i := ps[i].(status := st)]
    ensures UniqueProductIds(SetProductStatus(ps, ps[i].id, st))
  {
  }

  lemma SetTransactionStatusAt(txs: seq<Transaction>, i: nat, status: string)
    requires UniqueTransactionIds(txs) && i < |txs|
    ensures SetTransactionStatus(txs, txs[i].id, status) == txs[i := txs[i].(status := status)]
    ensures UniqueTransactionIds(SetTransactionStatus(txs, txs[i].id, status))
  {
  }
}
