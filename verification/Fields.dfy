/** The hash field of a cart or wishlist entry: `productId` or `productId:variantId`. */
module Fields {
  import opened Base

  function Field(productId: string, variantId: Option<string>): string {
    if Present(variantId) then productId + ":" + variantId.value else productId
  }

  /** Index of the first colon, or the length when there is none. */
  function FirstColon(s: string): (n: nat)
    ensures n <= |s|
    ensures ':' !in s[..n]
    ensures n < |s| ==> s[n] == ':'
  {
    if s == "" || s[0] == ':' then 0
    else
      var m := FirstColon(s[1..]);
      assert s[..m + 1] == [s[0]] + s[1..][..m];
      m + 1
  }

  /** Splits a field at its first colon. */
  function Decode(field: string): (string, Option<string>) {
    var n := FirstColon(field);
    if n == |field| then (field, None) else (field[..n], Some(field[n + 1..]))
  }

  /** The first colon sits right behind a colon-free prefix. */
  lemma {:induction false} FirstColonAfter(prefix: string, rest: string)
    requires ':' !in prefix && (rest == "" || rest[0] == ':')
    ensures FirstColon(prefix + rest) == |prefix|
  {
    if prefix == "" {
      assert prefix + rest == rest;
    } else {
      assert (prefix + rest)[1..] == prefix[1..] + rest;
      FirstColonAfter(prefix[1..], rest);
    }
  }

  /** Decoding recovers the product and the variant meant exactly when the product id has no colon. */
  lemma FieldRoundTrip(productId: string, variantId: Option<string>)
    ensures Decode(Field(productId, variantId)) == (productId, Norm(variantId)) <==> ':' !in productId
  {
    var rest := if Present(variantId) then ":" + variantId.value else "";
    var field := Field(productId, variantId);
    assert field == productId + rest;
    if ':' !in productId {
      FirstColonAfter(productId, rest);
      if Present(variantId) {
        assert field[|productId| + 1..] == variantId.value;
      }
    } else {
      assert ':' in field;
    }
  }

  /** A hash never merges different items: colon-free products share a field only if they are the same item. */
  lemma FieldInjective(p: string, v: Option<string>, q: string, w: Option<string>)
    requires ':' !in p && ':' !in q
    ensures Field(p, v) == Field(q, w) <==> p == q && Norm(v) == Norm(w)
  {
    FieldRoundTrip(p, v);
    FieldRoundTrip(q, w);
  }

  /** With a colon in a product id two different items do share a field. */
  lemma ColonsCollide()
    ensures Field("a", Some("b:c")) == Field("a:b", Some("c"))
  {
    assert "a" + ":" + "b:c" == "a:b" + ":" + "c";
  }

  /** The deterministic job id `abandoned:{userId}:{index}`. */
  function JobName(userId: string, index: nat): string
    requires index < 10
  {
    "abandoned:" + userId + ":" + ["0123456789"[index]]
  }

  /** Job ids of different users or different reminders never clash, whatever characters a user id holds. */
  lemma JobNameInjective(u: string, i: nat, v: string, j: nat)
    requires i < 10 && j < 10
    ensures JobName(u, i) == JobName(v, j) <==> u == v && i == j
  {
    var a, b := JobName(u, i), JobName(v, j);
    if a == b {
      assert |u| == |v|;
      assert u == a[10..10 + |u|];
      assert v == b[10..10 + |v|];
      assert a[|a| - 1] == "0123456789"[i] && b[|b| - 1] == "0123456789"[j];
    }
  }
}
