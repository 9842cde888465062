/** A customer record as the backend hands it out, with both generations
    of remedy fields: the newer `remedies` list and the legacy
    `remedy1` … `remedy5` strings. */
module Records {
  import opened Wrappers
  import opened JsString

  /** A string property as a JSON record gives it: absent (read as
      `undefined`), `null`, or a string. JavaScript tells the first two
      apart when it prints them or assigns them to an input. */
  datatype Prop = Absent | Null | Str(s: string)

  /** The property is falsy: absent, `null` or `""`. */
  predicate FalsyProp(p: Prop) { !p.Str? || p.s == "" }

  /** `p || q`. */
  function Or(p: Prop, q: Prop): (r: Prop)
    ensures !FalsyProp(p) ==> r == p
    ensures FalsyProp(p) ==> r == q
  {
    if FalsyProp(p) then q else p
  }

  /** `${p}` in a template literal. */
  function Template(p: Prop): string {
    match p
    case Absent => "undefined"
    case Null => "null"
    case Str(s) => s
  }

  /** `input.value = p`: the setter turns `null` into `""`, but
      `undefined` into the text "undefined". */
  function InputValue(p: Prop): string {
    match p
    case Absent => "undefined"
    case Null => ""
    case Str(s) => s
  }

  /** A template shows every property as something, and shows a string as
      itself; an input is left empty exactly by `null` and by `""`. */
  lemma PropTexts(p: Prop)
    ensures p.Str? ==> Template(p) == InputValue(p) == p.s
    ensures p == Null ==> Template(p) == "null" && InputValue(p) == ""
    ensures p == Absent ==> Template(p) == InputValue(p) == "undefined"
    ensures InputValue(p) == "" <==> p == Null || p == Str("")
  {
  }

  /** One record. The remedy entries are options: an absent and a `null`
      entry behave alike wherever they are read (`r && r.trim()` and
      `r || ''`). */
  datatype Customer = Customer(
    id: Prop,                         // `_id`
    customerId: Prop,
    name: Prop,
    customerName: Prop,
    dob: Prop,
    remedies: Option<seq<string>>,    // `None` when the record has no list
    remedy1: Option<string>,
    remedy2: Option<string>,
    remedy3: Option<string>,
    remedy4: Option<string>,
    remedy5: Option<string>)

  /** What a list request resolves to: a JSON array of records, or some
      other JSON value. */
  datatype ListResponse = Records(items: seq<Customer>) | NotAList

  /** `Array.isArray(list) ? list : []`. */
  function ArrayOrEmpty(resp: ListResponse): (r: seq<Customer>)
    ensures resp.NotAList? ==> r == []
    ensures resp.Records? ==> r == resp.items
  {
    match resp
    case Records(items) => items
    case NotAList => []
  }

  /** `[c.remedy1, c.remedy2, c.remedy3, c.remedy4, c.remedy5]`. */
  function Legacy(c: Customer): (r: seq<Option<string>>)
    ensures |r| == 5
  {
    [c.remedy1, c.remedy2, c.remedy3, c.remedy4, c.remedy5]
  }

  /** The entries of a present list, each one a defined string. */
  function Present(xs: seq<string>): (r: seq<Option<string>>)
    ensures |r| == |xs| && forall k :: 0 <= k < |xs| ==> r[k] == Some(xs[k])
  {
    seq(|xs|, k requires 0 <= k < |xs| => Some(xs[k]))
  }

  /** `r && r.trim()`: defined, and not blank once trimmed. */
  predicate Filled(x: Option<string>) { x.Some? && Trim(x.value) != "" }

  /** `list.filter(r => r && r.trim())`: the filled entries, in order and
      untrimmed. */
  function KeepFilled(xs: seq<Option<string>>): (r: seq<string>)
    ensures |r| <= |xs|
    ensures forall k :: 0 <= k < |r| ==> Trim(r[k]) != ""
    ensures forall k :: 0 <= k < |r| ==> Some(r[k]) in xs
  {
    if xs == [] then []
    else (if Filled(xs[0]) then [xs[0].value] else []) + KeepFilled(xs[1..])
  }

  /** Filtering distributes over concatenation, so order is kept. */
  lemma {:induction false} KeepFilledAppend(a: seq<Option<string>>, b: seq<Option<string>>)
    ensures KeepFilled(a + b) == KeepFilled(a) + KeepFilled(b)
  {
    if a == [] {
      assert a + b == b;
    } else {
      assert (a + b)[0] == a[0];
      assert (a + b)[1..] == a[1..] + b;
      KeepFilledAppend(a[1..], b);
    }
  }

  /** A list with no missing or blank entry passes the filter whole. */
  lemma {:induction false} KeepFilledAll(xs: seq<string>)
    requires forall k :: 0 <= k < |xs| ==> Trim(xs[k]) != ""
    ensures KeepFilled(Present(xs)) == xs
  {
    if xs != [] {
      assert Present(xs)[1..] == Present(xs[1..]);
      KeepFilledAll(xs[1..]);
    }
  }

  /** The filter drops exactly the missing and blank entries: it keeps
      everything iff every entry is filled. */
  lemma {:induction false} KeepFilledKeepsAllIff(xs: seq<Option<string>>)
    ensures |KeepFilled(xs)| == |xs| <==> forall k :: 0 <= k < |xs| ==> Filled(xs[k])
  {
    if xs != [] {
      KeepFilledKeepsAllIff(xs[1..]);
      assert (forall k :: 0 <= k < |xs| ==> Filled(xs[k]))
             <==> Filled(xs[0]) && forall k :: 0 <= k < |xs[1..]| ==> Filled(xs[1..][k]) by {
        if Filled(xs[0]) && forall k :: 0 <= k < |xs[1..]| ==> Filled(xs[1..][k]) {
          forall k | 0 <= k < |xs| ensures Filled(xs[k]) {
            if k > 0 { assert xs[k] == xs[1..][k - 1]; }
          }
        }
      }
    }
  }
}
