/**
 * The request handlers of the catalogue service, each as a function of the
 * immutable catalogue and the request's parameters (path id, path category,
 * query string, JSON body) or, for `/api/env`, of the process environment.
 */
module Server {
  import opened Wrappers
  import opened Sequences
  import opened Text
  import opened Catalog

  /** A handler's JSON answer: a body sent with status 200, or an error status with its `error` message. */
  datatype Reply<T> = Ok(body: T) | Err(status: int, error: string)

  const ProductNotFound := "Product not found"
  const FieldsRequired := "All fields are required"
  const EmailRequired := "Email is required"
  const InvalidEmail := "Invalid email address"
  const ContactThanks := "Thank you for your message! We'll get back to you soon."
  const NewsletterThanks := "Thank you for subscribing to our newsletter!"

  // ---------------------------------------------------------------- queries

  /** `GET /api/products/:id`, with the path id already parsed to an integer. */
  function GetProduct(products: seq<Product>, id: int): (r: Reply<Product>)
    ensures r.Ok? ==> r.body in products && r.body.id == id
    ensures r.Err? <==> forall p :: p in products ==> p.id != id
    ensures r.Err? ==> r == Err(404, ProductNotFound)
  {
    match FindProduct(products, id)
    case Some(p) => Ok(p)
    case None => Err(404, ProductNotFound)
  }

  /** In the catalogue, whose ids are unique, every record is served under its own id. */
  lemma GetProductByOwnId(products: seq<Product>, k: nat)
    requires UniqueIds(products) && k < |products|
    ensures GetProduct(products, products[k].id) == Ok(products[k])
  {
    FindProductUnique(products, k);
  }

  /** `GET /api/products/category/:category`: exact match against the lower-cased path segment. */
  function ByCategory(products: seq<Product>, category: string): (r: seq<Product>)
    ensures forall p :: p in r <==> p in products && p.category == Lower(category)
    ensures forall p :: multiset(r)[p] == if p.category == Lower(category) then multiset(products)[p] else 0
    ensures IsSubsequence(r, products)
  {
    Filter(products, (p: Product) => p.category == Lower(category))
  }

  /** Two path segments that differ only in the case of their letters select the same records. */
  lemma ByCategoryIgnoresCase(products: seq<Product>, a: string, b: string)
    requires |a| == |b| && forall i :: 0 <= i < |a| ==> LowerChar(a[i]) == LowerChar(b[i])
    ensures ByCategory(products, a) == ByCategory(products, b)
  {
    assert Lower(a) == Lower(b);
  }

  /** The record side is not lower-cased: a category spelled with a capital letter is never selected. */
  lemma CapitalisedCategoryNeverSelected(products: seq<Product>, category: string, p: Product, j: nat)
    requires j < |p.category| && IsUpper(p.category[j])
    ensures p !in ByCategory(products, category)
  {
  }

  /** A record matches a (lower-cased) query when its name, description or category contains it. */
  predicate SearchHit(p: Product, query: string) {
    Contains(Lower(p.name), query) || Contains(Lower(p.description), query) || Contains(Lower(p.category), query)
  }

  /** `GET /api/search?q=`: an absent or empty `q` returns the catalogue; otherwise a case-insensitive substring search. */
  function Search(products: seq<Product>, q: Option<string>): (r: seq<Product>)
    ensures q.None? || q.value == "" ==> r == products
    ensures q.Some? && q.value != "" ==> forall p :: p in r <==> p in products && SearchHit(p, Lower(q.value))
    ensures q.Some? && q.value != "" ==>
      forall p :: multiset(r)[p] == if SearchHit(p, Lower(q.value)) then multiset(products)[p] else 0
    ensures IsSubsequence(r, products)
  {
    var query := if q.Some? then Lower(q.value) else "";
    if query == "" then
      SubsequenceOfItself(products);
      products
    else Filter(products, (p: Product) => SearchHit(p, query))
  }

  /** A non-empty query that occurs in no field of any record yields the empty list, not an error. */
  lemma SearchWithoutHitsIsEmpty(products: seq<Product>, q: string)
    requires q != ""
    requires forall p :: p in products ==> !SearchHit(p, Lower(q))
    ensures Search(products, Some(q)) == []
  {
  }

  // ---------------------------------------------------------------- validation

  /** One character of the class `[^\s@]`. */
  predicate Plain(c: char) { !IsSpace(c) && c != '@' }

  ghost predicate AllPlain(s: string) {
    forall i :: 0 <= i < |s| ==> Plain(s[i])
  }

  /**
   * The regular expression `^[^\s@]+@[^\s@]+\.[^\s@]+$` read literally: a
   * non-empty plain run, `@`, a non-empty plain run, `.`, a non-empty plain run.
   */
  ghost predicate MatchesEmailPattern(s: string) {
    exists at, dot ::
      0 < at && at + 1 < dot && dot + 1 < |s| && s[at] == '@' && s[dot] == '.' &&
      AllPlain(s[..at]) && AllPlain(s[at + 1..dot]) && AllPlain(s[dot + 1..])
  }

  /**
   * The test the handlers apply to an e-mail address: no white space, one `@`
   * not in first position, and a `.` after it that is neither the first nor
   * the last character of the domain.
   */
  predicate IsEmail(s: string) {
    (forall i :: 0 <= i < |s| ==> !IsSpace(s[i])) &&
    match FirstIndex(s, (c: char) => c == '@')
    case None => false
    case Some(at) =>
      0 < at && (forall i :: at < i < |s| ==> s[i] != '@') &&
      exists dot :: at + 1 < dot < |s| - 1 && s[dot] == '.'
  }

  /** An address that passes the test matches the regular expression. */
  lemma IsEmailMatchesPattern(s: string)
    requires IsEmail(s)
    ensures MatchesEmailPattern(s)
  {
    var at := FirstIndex(s, (c: char) => c == '@').value;
    var dot :| at + 1 < dot < |s| - 1 && s[dot] == '.';
    assert AllPlain(s[..at]);
    assert AllPlain(s[at + 1..dot]);
    assert AllPlain(s[dot + 1..]);
  }

  /** An address that matches the regular expression passes the test. */
  lemma PatternMatchIsEmail(s: string)
    requires MatchesEmailPattern(s)
    ensures IsEmail(s)
  {
    var at, dot :| 0 < at && at + 1 < dot && dot + 1 < |s| && s[at] == '@' && s[dot] == '.' &&
      AllPlain(s[..at]) && AllPlain(s[at + 1..dot]) && AllPlain(s[dot + 1..]);
    forall i | 0 <= i < |s| ensures !IsSpace(s[i]) && (i != at ==> s[i] != '@') {
      if i < at {
        assert s[i] == s[..at][i];
      } else if at < i < dot {
        assert s[i] == s[at + 1..dot][i - at - 1];
      } else if dot < i {
        assert s[i] == s[dot + 1..][i - dot - 1];
      }
    }
    assert FirstIndex(s, (c: char) => c == '@') == Some(at);
  }

  /** The characterisation of the address test agrees with the regular expression, in both directions. */
  lemma IsEmailIffPattern(s: string)
    ensures IsEmail(s) <==> MatchesEmailPattern(s)
  {
    if IsEmail(s) {
      IsEmailMatchesPattern(s);
    }
    if MatchesEmailPattern(s) {
      PatternMatchIsEmail(s);
    }
  }

  /** JavaScript truthiness of a string body field: present and not empty. */
  predicate Filled(field: Option<string>) {
    field.Some? && field.value != ""
  }

  /** `POST /api/contact`: all four fields are checked before the address is. */
  function Contact(name: Option<string>, email: Option<string>, subject: Option<string>, message: Option<string>): (r: Reply<string>)
    ensures !(Filled(name) && Filled(email) && Filled(subject) && Filled(message)) ==> r == Err(400, FieldsRequired)
    ensures r.Ok? <==> Filled(name) && Filled(email) && Filled(subject) && Filled(message) && MatchesEmailPattern(email.value)
    ensures r.Ok? ==> r.body == ContactThanks
    ensures r.Err? ==> r.status == 400 && (r.error == InvalidEmail <==> Filled(email) && !MatchesEmailPattern(email.value) && Filled(name) && Filled(subject) && Filled(message))
  {
    if !(Filled(name) && Filled(email) && Filled(subject) && Filled(message)) then Err(400, FieldsRequired)
    else
      IsEmailIffPattern(email.value);
      if !IsEmail(email.value) then Err(400, InvalidEmail)
      else Ok(ContactThanks)
  }

  /** `POST /api/newsletter`: a missing address, then a malformed one, then success. */
  function Newsletter(email: Option<string>): (r: Reply<string>)
    ensures !Filled(email) ==> r == Err(400, EmailRequired)
    ensures Filled(email) && !MatchesEmailPattern(email.value) ==> r == Err(400, InvalidEmail)
    ensures r.Ok? <==> Filled(email) && MatchesEmailPattern(email.value)
    ensures r.Ok? ==> r.body == NewsletterThanks
  {
    if !Filled(email) then Err(400, EmailRequired)
    else
      IsEmailIffPattern(email.value);
      if !IsEmail(email.value) then Err(400, InvalidEmail)
      else Ok(NewsletterThanks)
  }

  /** "a@b.co" is a well-formed address. */
  lemma WellFormedAddressExample()
    ensures MatchesEmailPattern("a@b.co")
  {
    var s := "a@b.co";
    assert s[1] == '@' && s[3] == '.';
    assert AllPlain(s[..1]) && AllPlain(s[2..3]) && AllPlain(s[4..]);
  }

  /** The worked submissions: a well-formed address succeeds, "not-an-email" and an empty address fail differently. */
  lemma ContactExamples()
    ensures Contact(Some("Ann"), Some("a@b.co"), Some("Hi"), Some("Hello")) == Ok(ContactThanks)
    ensures Contact(Some("Ann"), Some("not-an-email"), Some("Hi"), Some("Hello")) == Err(400, InvalidEmail)
    ensures Contact(Some("Ann"), Some(""), Some("Hi"), Some("Hello")) == Err(400, FieldsRequired)
    ensures Newsletter(Some("not-an-email")) == Err(400, InvalidEmail)
  {
    WellFormedAddressExample();
    assert '@' !in "not-an-email";
  }

  /** "Rings" and "rings" select the same records: here, the one ring of the fixture. */
  lemma CategoryExample()
    ensures ByCategory(Fixture, "Rings") == ByCategory(Fixture, "rings") == [Fixture[1]]
  {
    assert Lower("Rings") == "rings" && Lower("rings") == "rings";
  }

  // ---------------------------------------------------------------- environment

  /** The only environment variables `/api/env` may reveal, in the order it visits them. */
  const EnvWhitelist: seq<string> := ["NODE_ENV", "APP_NAME", "APP_PORT"]

  /** `GET /api/env`: copy each whitelisted variable whose value is non-empty. */
  method SafeEnv(env: map<string, string>) returns (result: map<string, string>)
    ensures forall key :: key in result <==> key in EnvWhitelist && key in env && env[key] != ""
    ensures forall key :: key in result ==> result[key] == env[key]
  {
    result := map[];
    for i := 0 to |EnvWhitelist|
      invariant forall key :: key in result <==> key in EnvWhitelist[..i] && key in env && env[key] != ""
      invariant forall key :: key in result ==> result[key] == env[key]
    {
      var key := EnvWhitelist[i];
      if key in env && env[key] != "" {
        result := result[key := env[key]];
      }
    }
    assert EnvWhitelist[..|EnvWhitelist|] == EnvWhitelist;
  }
}
