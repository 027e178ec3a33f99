/** Produto: an immutable product. Its name and description are checked when
    it is built; its code is stored unchecked and may be null. The class
    defines no equality of its own, so two products are the same exactly when
    they are the same object; the rule its documentation states instead
    (same code, same product) is `SameProduct`. */
module Products {
  import opened Lang

  class Product {
    const name: string
    const code: Option<Long>
    const description: string

    /** The success path of `new Produto(nome, codigo, descricao)`. */
    constructor (name: string, code: Option<Long>, description: string)
      requires name != "" && description != ""
      ensures this.name == name && this.code == code && this.description == description
    {
      this.name := name;
      this.code := code;
      this.description := description;
    }

    /** `new Produto(nome, codigo, descricao)`, throwing when the name or the
        description is null or empty; the code is never checked. */
    static method New(name: Option<string>, code: Option<Long>, description: Option<string>)
      returns (r: Result<Product>)
      ensures r.Ok? <==> IsFilled(name) && IsFilled(description)
      ensures r.Err? ==> r.error == IllegalArgument
      ensures r.Ok? ==> fresh(r.value) && r.value.name != "" && r.value.description != ""
      ensures r.Ok? ==> r.value.name == name.value && r.value.code == code
                        && r.value.description == description.value
    {
      if name.None? || name.value == "" || description.None? || description.value == "" {
        return Err(IllegalArgument);
      }
      var p := new Product(name.value, code, description.value);
      return Ok(p);
    }
  }

  /** The documented product equality: the same code, whatever the name and
      the description (two null codes are the same code). */
  predicate SameProduct(p: Product, q: Product)
  {
    p.code == q.code
  }

  /** SameProduct is an equivalence that ignores names and descriptions, and
      is implied by identity. */
  lemma SameProductIsEquivalence(p: Product, q: Product, s: Product)
    ensures SameProduct(p, p)
    ensures SameProduct(p, q) ==> SameProduct(q, p)
    ensures SameProduct(p, q) && SameProduct(q, s) ==> SameProduct(p, s)
    ensures p == q ==> SameProduct(p, q)
  {
  }
}
