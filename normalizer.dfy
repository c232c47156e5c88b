/**
 * The event-type normaliser of the silver layer: each label is trimmed,
 * lower-cased and then looked up in a fixed synonym table; a label the table
 * does not know passes through in its trimmed, lower-case form.
 */
module EventNormalizer {
  import opened Text
  import opened Options
  import opened Events

  /** The synonym table: the canonical name of a known variant, `None` for any other key. */
  function Synonym(key: string): Option<string> {
    if key in {"view", "product_view", "pageview", "page_view"} then Some("view")
    else if key in {"cart", "add_to_cart", "add-cart"} then Some("cart")
    else if key in {"purchase", "buy", "order"} then Some("purchase")
    else None
  }

  /** The canonical names the table maps onto. */
  function CanonicalTypes(): set<string> {
    {"view", "cart", "purchase"}
  }

  /** A label normalisation leaves alone: trimmed, lower-case, and fixed by the table. */
  predicate IsNormalForm(x: string) {
    Trimmed(x) && LowerCase(x) && (Synonym(x).Some? ==> Synonym(x) == Some(x))
  }

  /** Every table entry is a canonical name, and every canonical name is in normal form. */
  lemma SynonymsCanonical()
    ensures forall key :: Synonym(key).Some? ==> Synonym(key).value in CanonicalTypes()
    ensures forall x :: x in CanonicalTypes() ==> Synonym(x) == Some(x) && IsNormalForm(x)
  {
    forall x | x in CanonicalTypes() ensures Synonym(x) == Some(x) && IsNormalForm(x) {
    }
  }

  /** The label after `str.strip()` and `str.lower()`: the key looked up in the table. */
  function LookupKey(raw: string): (k: string)
    ensures Trimmed(k) && LowerCase(k) && |k| <= |raw|
  {
    LowerKeepsTrimmed(Strip(raw));
    ToLower(Strip(raw))
  }

  /**
   * The canonical event type of a label: the table's entry for the lower-cased,
   * trimmed label if it has one, that key itself otherwise.
   */
  function CanonicalType(raw: string): string {
    var key := LookupKey(raw);
    match Synonym(key)
    case Some(canonical) => canonical
    case None => key
  }

  /**
   * The canonical type is in normal form; it is one of the canonical names exactly
   * when the table knows the key, and otherwise it is the key itself.
   */
  lemma CanonicalTypeSpec(raw: string)
    ensures IsNormalForm(CanonicalType(raw))
    ensures CanonicalType(raw) in CanonicalTypes() <==> Synonym(LookupKey(raw)).Some?
    ensures CanonicalType(raw) !in CanonicalTypes() ==> CanonicalType(raw) == LookupKey(raw)
  {
    SynonymsCanonical();
  }

  /** A label already in normal form is its own canonical type. */
  lemma {:induction false} CanonicalTypeOfNormalForm(x: string)
    requires IsNormalForm(x)
    ensures CanonicalType(x) == x
  {
    StripTrimmed(x);
    ToLowerOfLowerCase(x);
  }

  /** Normalising a label twice gives what normalising it once gives. */
  lemma CanonicalTypeIdempotent(raw: string)
    ensures CanonicalType(CanonicalType(raw)) == CanonicalType(raw)
  {
    CanonicalTypeSpec(raw);
    CanonicalTypeOfNormalForm(CanonicalType(raw));
  }

  /** A label that is trimmed and has no upper-case letter is its own lookup key. */
  lemma LookupKeyOfTrimmedLower(x: string)
    requires Trimmed(x) && LowerCase(x)
    ensures LookupKey(x) == x
  {
    StripTrimmed(x);
    ToLowerOfLowerCase(x);
  }

  /** A worked example: "Cart " normalises to "cart". */
  lemma CartExample()
    ensures CanonicalType("Cart ") == "cart"
  {
    CartKey();
    CartSynonym();
  }

  lemma CartKey()
    ensures LookupKey("Cart ") == "cart"
  {
    CartStrip();
    CartLower();
  }

  lemma CartSynonym()
    ensures Synonym("cart") == Some("cart")
  {
  }

  lemma CartStrip()
    ensures Strip("Cart ") == "Cart"
  {
    assert "Cart " == "Cart" + [' '];
    TrimEndSpace("Cart", ' ');
    StripTrimmed("Cart");
  }

  lemma CartLower()
    ensures ToLower("Cart") == "cart"
  {
    var lower := ToLower("Cart");
    assert lower[0] == 'c' && lower[1] == 'a' && lower[2] == 'r' && lower[3] == 't';
  }

  /** A worked example: "add_to_cart" normalises to "cart". */
  lemma AddToCartExample()
    ensures CanonicalType("add_to_cart") == "cart"
  {
    AddToCartKey();
    AddToCartSynonym();
  }

  lemma AddToCartKey()
    ensures LookupKey("add_to_cart") == "add_to_cart"
  {
    var s := "add_to_cart";
    assert forall i :: 0 <= i < |s| ==> !IsUpper(s[i]);
    LookupKeyOfTrimmedLower(s);
  }

  lemma AddToCartSynonym()
    ensures Synonym("add_to_cart") == Some("cart")
  {
  }

  /** A worked example: "BUY" normalises to "purchase". */
  lemma BuyExample()
    ensures CanonicalType("BUY") == "purchase"
  {
    BuyKey();
    BuySynonym();
  }

  lemma BuyKey()
    ensures LookupKey("BUY") == "buy"
  {
    BuyStrip();
    BuyLower();
  }

  lemma BuySynonym()
    ensures Synonym("buy") == Some("purchase")
  {
  }

  lemma BuyStrip()
    ensures Strip("BUY") == "BUY"
  {
    StripTrimmed("BUY");
  }

  lemma BuyLower()
    ensures ToLower("BUY") == "buy"
  {
    var lower := ToLower("BUY");
    assert lower[0] == 'b' && lower[1] == 'u' && lower[2] == 'y';
  }

  /** `Series.map(f)` on the `event_type` column: each type replaced by its image; nothing else changes. */
  function MapTypes(events: seq<Event>, f: string -> string): (r: seq<Event>)
    ensures |r| == |events|
    ensures forall i :: 0 <= i < |r| ==>
      r[i].user == events[i].user && r[i].time == events[i].time && r[i].etype == f(events[i].etype)
  {
    seq(|events|, i requires 0 <= i < |events| => events[i].(etype := f(events[i].etype)))
  }

  /** Mapping twice with a function that is idempotent maps once. */
  lemma MapTypesIdempotent(events: seq<Event>, f: string -> string)
    requires forall x :: f(f(x)) == f(x)
    ensures MapTypes(MapTypes(events, f), f) == MapTypes(events, f)
  {
  }

  /** The events with their `event_type` replaced by its canonical type; nothing else changes. */
  function NormalizeEvents(events: seq<Event>): seq<Event> {
    MapTypes(events, CanonicalType)
  }

  /** The normalised frame is a fixed point of normalisation. */
  lemma NormalizeEventsIdempotent(events: seq<Event>)
    ensures NormalizeEvents(NormalizeEvents(events)) == NormalizeEvents(events)
  {
    forall x ensures CanonicalType(CanonicalType(x)) == CanonicalType(x) {
      CanonicalTypeIdempotent(x);
    }
    MapTypesIdempotent(events, CanonicalType);
  }

  /** Applies `f` to the `event_type` of every row of the caller's frame, in place. */
  method MapEventTypes(frame: array<Event>, f: string -> string)
    modifies frame
    ensures frame[..] == MapTypes(old(frame[..]), f)
  {
    ghost var mapped := MapTypes(frame[..], f);
    for i := 0 to frame.Length
      invariant frame[..i] == mapped[..i]
      invariant frame[i..] == old(frame[..])[i..]
    {
      frame[i] := frame[i].(etype := f(frame[i].etype));
      assert frame[..i + 1] == frame[..i] + [frame[i]];
    }
    assert frame[..] == frame[..frame.Length];
  }

  /** `standardize_event_type`: overwrites the `event_type` column of the caller's frame with the canonical types. */
  method StandardizeEventType(frame: array<Event>)
    modifies frame
    ensures frame[..] == NormalizeEvents(old(frame[..]))
  {
    MapEventTypes(frame, CanonicalType);
  }
}
