/** The two pure helpers of the browser client: the name shown for a logged-in
    user and the marketplace's category filter. */
module Client {
  import opened Wrappers
  import opened Seqs
  import opened Market

  /** The text of `s` before its first '@' (all of `s` when it has none), what
      `s.split('@')[0]` yields. */
  function LocalPart(s: string): (r: string)
    ensures r <= s
    ensures '@' !in r
    ensures r == s || s[|r|] == '@'
  {
    if s == [] || s[0] == '@' then []
    else [s[0]] + LocalPart(s[1..])
  }

  /** `getDisplayName`: 'User' when there is no e-mail (null, undefined or the
      empty string); otherwise the part of the e-mail before its first '@'.
      `None` stands for null and undefined. */
  function DisplayName(email: Option<string>): (name: string)
    ensures email.None? || email.value == "" ==> name == "User"
    ensures email.Some? && email.value != "" ==>
      && name <= email.value
      && '@' !in name
      && (name == email.value || email.value[|name|] == '@')
  {
    if email.None? || email.value == "" then "User"
    else LocalPart(email.value)
  }

  /** The three properties of `DisplayName` pin the name down: any prefix of the
      e-mail that has no '@' and ends the e-mail or is followed by '@' is it. */
  lemma LocalPartUnique(s: string, r: string)
    requires r <= s && '@' !in r && (r == s || s[|r|] == '@')
    ensures r == LocalPart(s)
  {
  }

  /** An e-mail without '@' is shown whole. */
  lemma DisplayNameWithoutAt(email: string)
    requires email != "" && '@' !in email
    ensures DisplayName(Some(email)) == email
  {
  }

  /** The marketplace's category filter: 'All' shows the product list as it is;
      any other choice shows the products of that category and only those, in
      the list's order. */
  function CategoryFilter(products: seq<Product>, filterType: string): (shown: seq<Product>)
    ensures filterType == "All" ==> shown == products
    ensures filterType != "All" ==> forall p :: p in shown <==> p in products && p.category == filterType
    ensures filterType != "All" ==>
      forall p :: multiset(shown)[p] == if p.category == filterType then multiset(products)[p] else 0
    ensures IsSubsequence(shown, products)
  {
    if filterType == "All" then
      assert IsSubsequence(products, products) by { SubsequenceReflexive(products); }
      products
    else
      var keep := (p: Product) => p.category == filterType;
      FilterCounts(products, keep);
      FilterKeepsOrder(products, keep);
      Filter(products, keep)
  }

  lemma {:induction false} SubsequenceReflexive<T>(s: seq<T>)
    ensures IsSubsequence(s, s)
  {
    if s != [] {
      SubsequenceReflexive(s[1..]);
    }
  }
}
