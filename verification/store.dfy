/** The server's mutating handlers, as methods on the document store: register
    appends a user, creating a transaction appends an order and books its
    product, and a status update overwrites an order's status (releasing the
    product on rejection). */
module Server {
  import opened Wrappers
  import opened Seqs
  import opened Market

  /** The three collections of the database, and the source of fresh ids. */
  class Store {
    var users: seq<User>
    var products: seq<Product>
    var transactions: seq<Transaction>
    var nextId: Id

    ghost predicate Valid()
      reads this
    {
      WellFormed(users, products, transactions, nextId)
    }

    /** A store holding the seeded users and products and no transactions. */
    constructor (seedUsers: seq<User>, seedProducts: seq<Product>, firstId: Id)
      requires WellFormed(seedUsers, seedProducts, [], firstId)
      ensures Valid()
      ensures users == seedUsers && products == seedProducts && transactions == [] && nextId == firstId
    {
      users := seedUsers;
      products := seedProducts;
      transactions := [];
      nextId := firstId;
    }

    /** `POST /api/register`: a taken e-mail is refused with nothing stored; an
        empty e-mail fails the schema's `required` check on insert, with nothing
        stored; otherwise a `customer` is appended, routed to the branch of
        their city. `passwordHash` is what the hashing library made of the password. */
    method Register(email: string, passwordHash: string, location: string) returns (r: Outcome<Refusal>)
      requires Valid()
      modifies this
      ensures Valid()
      ensures products == old(products) && transactions == old(transactions)
      ensures r == Fail(EmailExists) <==> EmailTaken(old(users), email)
      ensures r == Fail(InvalidUser) <==> email == "" && !EmailTaken(old(users), email)
      ensures r.Pass? <==> email != "" && !EmailTaken(old(users), email)
      ensures r.Fail? ==> users == old(users) && nextId == old(nextId)
      ensures r.Pass? ==>
        && users == old(users) + [User(old(nextId), email, passwordHash, Customer, BranchFor(location))]
        && nextId == old(nextId) + 1
    {
      if EmailTaken(users, email) {
        return Fail(EmailExists);
      }
      var branch := BranchFor(location);
      if email == "" {
        return Fail(InvalidUser);
      }
      users := users + [User(nextId, email, passwordHash, Customer, branch)];
      nextId := nextId + 1;
      return Pass;
    }

    /** `POST /api/transactions`: a missing product makes the handler throw and a
        buyer who is the product's seller is refused, both with nothing stored;
        otherwise the new `Pending` order is appended and its product is booked. */
    method CreateTransaction(productId: Id, buyerId: Id, paymentMethod: string, now: int)
      returns (r: Result<Transaction, Refusal>)
      requires Valid()
      modifies this
      ensures Valid()
      ensures users == old(users)
      ensures (r.Failure? && r.error == MissingRecord) <==> FindProduct(old(products), productId).None?
      ensures r.Success? <==> exists p :: p in old(products) && p.id == productId && p.seller != buyerId
      ensures (r.Failure? && r.error == SelfPurchase) <==>
        exists p :: p in old(products) && p.id == productId && p.seller == buyerId
      ensures r.Failure? ==>
        products == old(products) && transactions == old(transactions) && nextId == old(nextId)
      ensures r.Success? ==>
        && (exists p :: p in old(products) && p.id == productId && p.seller != buyerId
              && r.value == NewTransaction(p, buyerId, paymentMethod, old(nextId), now))
        && transactions == old(transactions) + [r.value]
        && products == SetProductStatus(old(products), productId, Booked)
        && nextId == old(nextId) + 1
    {
      var k := IndexWhere(products, (p: Product) => p.id == productId);
      if k.None? {
        return Failure(MissingRecord);
      }
      var i := k.value;
      var product := products[i];
      if product.seller == buyerId {
        return Failure(SelfPurchase);
      }
      var tx := NewTransaction(product, buyerId, paymentMethod, nextId, now);
      transactions := transactions + [tx];
      SetProductStatusAt(products, i, Booked);
      products := products[i := product.(status := Booked)];
      nextId := nextId + 1;
      return Success(tx);
    }

    /** `PUT /api/transactions/:id/status`: the order takes the requested status
        whatever its current one is; `Rejected` also makes the order's product
        `Available`. For a missing order nothing changes, and the handler throws
        when the requested status is `Rejected` (it reads the product of the
        order it did not find). */
    method UpdateStatus(txId: Id, status: string) returns (r: Outcome<Refusal>)
      requires Valid()
      modifies this
      ensures Valid()
      ensures users == old(users) && nextId == old(nextId)
      ensures transactions == SetTransactionStatus(old(transactions), txId, status)
      ensures FindTransaction(old(transactions), txId).None? ==>
        && products == old(products)
        && r == (if status == Rejected then Fail(MissingRecord) else Pass)
      ensures FindTransaction(old(transactions), txId).Some? ==>
        && r == Pass
        && products == if status == Rejected
                       then SetProductStatus(old(products), FindTransaction(old(transactions), txId).value.product, Available)
                       else old(products)
    {
      var k := IndexWhere(transactions, (t: Transaction) => t.id == txId);
      if k.None? {
        return if status == Rejected then Fail(MissingRecord) else Pass;
      }
      var i := k.value;
      var tx := transactions[i];
      SetTransactionStatusAt(transactions, i, status);
      transactions := transactions[i := tx.(status := status)];
      if status == Rejected {
        var j := IndexWhere(products, (p: Product) => p.id == tx.product);
        if j.Some? {
          SetProductStatusAt(products, j.value, Available);
          products := products[j.value := products[j.value].(status := Available)];
        }
      }
      return Pass;
    }
  }
}
