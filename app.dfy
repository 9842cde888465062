/** The deep link into "My Remedies" (`openFromURL` in `App.init`,
    `js/app.js`): from the page's hash and its `view` and `customerId`
    query parameters, decide whether to open the remedies modal, with or
    without a customer id. The query parameters arrive as
    `URLSearchParams.get` hands them out (already decoded, `None` for a
    missing one). */
module App {
  import opened Wrappers
  import opened JsString
  import opened Uri
  import Records
  import Calculations
  import Modal

  /** The word whose presence in the lower-cased hash asks for the modal. */
  const HINT: string := "remedies"
  /** `customerId=` as the case-insensitive pattern sees it. */
  const KEY: string := "customerid="
  const URI_ERROR: string := "URIError: URI malformed"

  /** What the page does with the modal. */
  datatype Decision = Nothing | OpenWithoutId | OpenWithId(id: string)

  /** `hash.toLowerCase().includes('remedies') || params.get('view') === 'remedies'`. */
  predicate Hinted(hash: string, view: Option<string>) {
    Includes(ToLowerAscii(hash), HINT) || view == Some(HINT)
  }

  // ---------------------------------------------------------------------
  // The two hash patterns
  // ---------------------------------------------------------------------

  /** `/customerId=([^&]+)/i` can match at `p`: the key in any case, then
      at least one character other than `&`. */
  predicate KeyAt(h: string, p: nat) {
    p + |KEY| < |h| && ToLowerAscii(h[p..p + |KEY|]) == KEY && h[p + |KEY|] != '&'
  }

  /** The leftmost position at or after `from` where the key pattern
      matches. */
  function FirstKey(h: string, from: nat): (r: Option<nat>)
    requires from <= |h|
    ensures r.None? ==> forall p :: from <= p < |h| ==> !KeyAt(h, p)
    ensures r.Some? ==> from <= r.value < |h| && KeyAt(h, r.value)
                        && forall p :: from <= p < r.value ==> !KeyAt(h, p)
    decreases |h| - from
  {
    if from == |h| then None
    else if KeyAt(h, from) then Some(from)
    else FirstKey(h, from + 1)
  }

  /** Positions with no match can be skipped. */
  lemma {:induction false} FirstKeySkips(h: string, from: nat, to: nat)
    requires from <= to <= |h|
    requires forall p :: from <= p < to ==> !KeyAt(h, p)
    ensures FirstKey(h, from) == FirstKey(h, to)
    decreases (to as int) - (from as int)
  {
    if from < to {
      FirstKeySkips(h, from + 1, to);
    }
  }

  /** The character class `[A-Za-z0-9-_]`. */
  predicate IdChar(c: char) { IsAsciiLetter(c) || IsDigit(c) || c == '-' || c == '_' }

  /** `/[:=]([A-Za-z0-9-_]+)/` can match at `p`. */
  predicate SepAt(h: string, p: nat) {
    p + 1 < |h| && (h[p] == ':' || h[p] == '=') && IdChar(h[p + 1])
  }

  /** The leftmost position at or after `from` where the separator pattern
      matches. */
  function FirstSep(h: string, from: nat): (r: Option<nat>)
    requires from <= |h|
    ensures r.None? ==> forall p :: from <= p < |h| ==> !SepAt(h, p)
    ensures r.Some? ==> from <= r.value < |h| && SepAt(h, r.value)
                        && forall p :: from <= p < r.value ==> !SepAt(h, p)
    decreases |h| - from
  {
    if from == |h| then None
    else if SepAt(h, from) then Some(from)
    else FirstSep(h, from + 1)
  }

  /** Where the greedy `[^&]+` starting at `i` stops. */
  function AmpEnd(h: string, i: nat): (j: nat)
    requires i <= |h|
    ensures i <= j <= |h| && (forall k :: i <= k < j ==> h[k] != '&') && (j == |h| || h[j] == '&')
    decreases |h| - i
  {
    if i == |h| || h[i] == '&' then i else AmpEnd(h, i + 1)
  }

  /** Where the greedy `[A-Za-z0-9-_]+` starting at `i` stops. */
  function IdEnd(h: string, i: nat): (j: nat)
    requires i <= |h|
    ensures i <= j <= |h| && (forall k :: i <= k < j ==> IdChar(h[k])) && (j == |h| || !IdChar(h[j]))
    decreases |h| - i
  {
    if i == |h| || !IdChar(h[i]) then i else IdEnd(h, i + 1)
  }

  /** `m[1]` of the first pattern, or failing that of the second: never
      empty, and the second pattern's capture holds only class characters. */
  function HashCapture(h: string): (m: Option<string>)
    ensures m.Some? ==> m.value != []
    ensures FirstKey(h, 0).None? && FirstSep(h, 0).Some? ==>
              m.Some? && forall k :: 0 <= k < |m.value| ==> IdChar(m.value[k])
    ensures m.None? <==> FirstKey(h, 0).None? && FirstSep(h, 0).None?
  {
    match FirstKey(h, 0)
    case Some(p) => Some(h[p + |KEY|..AmpEnd(h, p + |KEY|)])
    case None =>
      match FirstSep(h, 0)
      case Some(p) => Some(h[p + 1..IdEnd(h, p + 1)])
      case None => None
  }

  /** `m ? decodeURIComponent(m[1]) : null`; a malformed escape throws. */
  function HashCustomerId(h: string): (r: Outcome<Option<string>>)
    ensures r.Threw? <==> HashCapture(h).Some? && DecodeURIComponent(HashCapture(h).value).None?
    ensures r == Returned(None) <==> HashCapture(h).None?
  {
    match HashCapture(h)
    case None => Returned(None)
    case Some(m) =>
      match DecodeURIComponent(m)
      case None => Threw(URI_ERROR)
      case Some(d) => Returned(Some(d))
  }

  /** A capture of the separator pattern has nothing to decode: it is the
      id as it stands. */
  lemma SeparatorCaptureIsPlain(h: string)
    requires FirstKey(h, 0).None? && FirstSep(h, 0).Some?
    ensures HashCustomerId(h) == Returned(HashCapture(h))
    ensures HashCapture(h).Some? && HashCapture(h).value != ""
  {
    var m := HashCapture(h).value;
    assert '%' !in m by {
      forall k | 0 <= k < |m| ensures m[k] != '%' {
        assert IdChar(m[k]);
      }
    }
    DecodeWithoutPercent(m);
  }

  /** `params.get('customerId') || <the id in the hash>`: a non-empty query
      parameter wins without the hash being read. */
  function CustomerIdFrom(hash: string, cidParam: Option<string>): (r: Outcome<Option<string>>)
    ensures !Falsy(cidParam) ==> r == Returned(cidParam)
    ensures Falsy(cidParam) ==> r == HashCustomerId(hash)
  {
    if !Falsy(cidParam) then Returned(cidParam) else HashCustomerId(hash)
  }

  // ---------------------------------------------------------------------
  // The decision
  // ---------------------------------------------------------------------

  /** `openFromURL()` as written: the hint opens the modal bare before any
      id is looked for; otherwise a non-empty id opens it with that id, and
      a thrown `URIError` is caught and opens nothing. */
  function OpenFromURL(hash: string, view: Option<string>, cidParam: Option<string>): (d: Decision)
    ensures d.OpenWithoutId? <==> Hinted(hash, view)
    ensures d.OpenWithId? ==> d.id != "" && CustomerIdFrom(hash, cidParam) == Returned(Some(d.id))
    ensures !Hinted(hash, view) && !Falsy(cidParam) ==> d == OpenWithId(cidParam.value)
    ensures !Hinted(hash, view) && CustomerIdFrom(hash, cidParam).Threw? ==> d == Nothing
  {
    if Hinted(hash, view) then OpenWithoutId
    else match CustomerIdFrom(hash, cidParam)
      case Threw(_) => Nothing
      case Returned(cid) => if Falsy(cid) then Nothing else OpenWithId(cid.value)
  }

  /** The decision as the comment beside the hash patterns means it: an id
      found anywhere opens the modal with that id; the hint alone opens it
      bare. */
  function OpenFromURLIntended(hash: string, view: Option<string>, cidParam: Option<string>): (d: Decision)
    ensures d.OpenWithId? <==> CustomerIdFrom(hash, cidParam).Returned?
                               && !Falsy(CustomerIdFrom(hash, cidParam).value)
    ensures d.OpenWithId? ==> CustomerIdFrom(hash, cidParam) == Returned(Some(d.id))
    ensures d.OpenWithoutId? <==> !d.OpenWithId? && Hinted(hash, view)
  {
    match CustomerIdFrom(hash, cidParam)
    case Returned(Some(cid)) =>
      if cid != "" then OpenWithId(cid) else if Hinted(hash, view) then OpenWithoutId else Nothing
    case _ => if Hinted(hash, view) then OpenWithoutId else Nothing
  }

  /** Without the hint both readings decide alike; they differ only where a
      hinted link also carries an id. */
  lemma IntendedAgreesWhenUnhinted(hash: string, view: Option<string>, cidParam: Option<string>)
    ensures !Hinted(hash, view) ==> OpenFromURLIntended(hash, view, cidParam) == OpenFromURL(hash, view, cidParam)
    ensures OpenFromURLIntended(hash, view, cidParam) != OpenFromURL(hash, view, cidParam) <==>
              Hinted(hash, view) && CustomerIdFrom(hash, cidParam).Returned?
              && !Falsy(CustomerIdFrom(hash, cidParam).value)
  {
  }

  /** With no `c` before it, a `customerId=` key followed by a character
      other than `&` is where the key pattern first matches. */
  lemma KeyFoundAt(pre: string, key: string, rest: string)
    requires forall p :: 0 <= p < |pre| ==> LowerChar(pre[p]) != 'c'
    requires ToLowerAscii(key) == KEY
    requires rest != [] && rest[0] != '&'
    ensures FirstKey(pre + key + rest, 0) == Some(|pre|)
  {
    var h := pre + key + rest;
    forall p | 0 <= p < |pre| ensures !KeyAt(h, p) {
      if p + |KEY| < |h| {
        assert ToLowerAscii(h[p..p + |KEY|])[0] == LowerChar(h[p]);
        assert h[p] == pre[p];
      }
    }
    FirstKeySkips(h, 0, |pre|);
    assert h[|pre|..|pre| + |key|] == key;
    assert h[|pre| + |key|] == rest[0];
    assert KeyAt(h, |pre|);
  }

  /** A tail with no `&` is taken whole by `[^&]+`. */
  lemma AmpFreeTail(h: string, i: nat)
    requires i <= |h| && forall k :: i <= k < |h| ==> h[k] != '&'
    ensures AmpEnd(h, i) == |h|
    decreases |h| - i
  {
    if i < |h| {
      AmpFreeTail(h, i + 1);
    }
  }

  /** An `&`-free suffix is taken whole by `[^&]+` started where it begins. */
  lemma AmpFreeSuffix(a: string, b: string)
    requires '&' !in b
    ensures (a + b)[|a|..AmpEnd(a + b, |a|)] == b
  {
    var h := a + b;
    forall k | |a| <= k < |h| ensures h[k] != '&' {
      assert h[k] == b[k - |a|];
    }
    AmpFreeTail(h, |a|);
    assert h[|a|..|h|] == b;
  }

  /** Where the key pattern first matches, its capture runs to the next
      `&`. */
  lemma CaptureAtKey(h: string, p: nat)
    requires FirstKey(h, 0) == Some(p)
    ensures HashCapture(h) == Some(h[p + |KEY|..AmpEnd(h, p + |KEY|)])
  {
  }

  /** A hash with no `c` before a `customerId=` key (in any case)
      followed by an encoded id yields exactly that id. */
  lemma KeyedLinkCarriesId(pre: string, key: string, id: string)
    requires forall p :: 0 <= p < |pre| ==> LowerChar(pre[p]) != 'c'
    requires ToLowerAscii(key) == KEY
    requires id != ""
    ensures HashCustomerId(pre + key + EncodeURIComponent(id)) == Returned(Some(id))
  {
    var enc := EncodeURIComponent(id);
    var h := pre + key + enc;
    assert enc[0] in enc;
    KeyFoundAt(pre, key, enc);
    AmpFreeSuffix(pre + key, enc);
    assert |pre + key| == |pre| + |KEY|;
    CaptureAtKey(h, |pre|);
    DecodeEncode(id);
    DecodedCapture(h, enc, id);
  }

  /** A capture that decodes to `d` is the id the hash yields. */
  lemma DecodedCapture(h: string, m: string, d: string)
    requires HashCapture(h) == Some(m) && DecodeURIComponent(m) == Some(d)
    ensures HashCustomerId(h) == Returned(Some(d))
  {
  }

  /** Letters spelling "remedies" in any case, anywhere in the hash, make
      it a hinted hash. */
  lemma HintedAt(h: string, a: nat)
    requires a + |HINT| <= |h| && ToLowerAscii(h[a..a + |HINT|]) == HINT
    ensures Hinted(h, None)
  {
    var low := ToLowerAscii(h);
    assert low[a..a + |HINT|] == ToLowerAscii(h[a..a + |HINT|]);
    assert SliceAt(low, a, HINT);
  }

  /** A prefix spelling "remedies" at position 3 hints whatever follows it. */
  lemma HintedPrefix(prefix: string, rest: string)
    requires |prefix| >= 11 && ToLowerAscii(prefix[3..11]) == HINT
    ensures Hinted(prefix + rest, None)
  {
    var h := prefix + rest;
    assert h[3..11] == prefix[3..11];
    HintedAt(h, 3);
  }

  /** The characters of the example link that matter to the decision. */
  lemma ExamplePrefixParts(prefix: string)
    requires prefix == "#myRemedies?customerId="
    ensures |prefix| == 23
    ensures forall p :: 0 <= p < 12 ==> LowerChar(prefix[p]) != 'c'
    ensures ToLowerAscii(prefix[12..]) == KEY
    ensures ToLowerAscii(prefix[3..11]) == HINT
  {
    var key, hint := prefix[12..], prefix[3..11];
    assert key == "customerId=";
    assert hint == "Remedies";
    LowersTo(key, KEY);
    LowersTo(hint, HINT);
  }

  /** Lowercasing `s` character by character gives `t`. */
  lemma LowersTo(s: string, t: string)
    requires |s| == |t| && forall k :: 0 <= k < |s| ==> LowerChar(s[k]) == t[k]
    ensures ToLowerAscii(s) == t
  {
  }

  /** The example link `#myRemedies?customerId=<encoded id>` carries the id
      in its hash, readable back exactly. */
  lemma ExampleLinkCarriesId(prefix: string, id: string)
    requires prefix == "#myRemedies?customerId="
    requires id != ""
    ensures HashCustomerId(prefix + EncodeURIComponent(id)) == Returned(Some(id))
  {
    ExamplePrefixParts(prefix);
    assert prefix == prefix[..12] + prefix[12..];
    KeyedLinkCarriesId(prefix[..12], prefix[12..], id);
  }

  /** As written, the example link opens the modal WITHOUT its id, though
      the id is there to read. */
  lemma ExampleLinkLosesId(prefix: string, id: string)
    requires prefix == "#myRemedies?customerId="
    requires id != ""
    ensures CustomerIdFrom(prefix + EncodeURIComponent(id), None) == Returned(Some(id))
    ensures OpenFromURL(prefix + EncodeURIComponent(id), None, None) == OpenWithoutId
  {
    ExampleLinkCarriesId(prefix, id);
    ExamplePrefixParts(prefix);
    HintedPrefix(prefix, EncodeURIComponent(id));
  }

  /** Read as intended, the example link opens the modal with its id. */
  lemma ExampleLinkOpensWithId(prefix: string, id: string)
    requires prefix == "#myRemedies?customerId="
    requires id != ""
    ensures OpenFromURLIntended(prefix + EncodeURIComponent(id), None, None) == OpenWithId(id)
  {
    ExampleLinkCarriesId(prefix, id);
  }

  // ---------------------------------------------------------------------
  // The page
  // ---------------------------------------------------------------------

  /** The part of `App` that the deep link drives: its remedies modal. */
  class Page {
    var remediesModal: Modal.RemediesModal

    constructor (modal: Modal.RemediesModal)
      ensures remediesModal == modal
    {
      remediesModal := modal;
    }

    /** Carries a decision out: `open()`, `open(cid)`, or nothing. */
    method Apply(d: Decision, fetch: string -> Outcome<Records.ListResponse>, today: Calculations.Date)
      requires remediesModal.Valid()
      requires d.OpenWithId? ==> d.id != ""
      modifies remediesModal`view, remediesModal`isOpen, remediesModal`overflow
      ensures remediesModal.Valid()
      ensures d.Nothing? ==> unchanged(remediesModal)
      ensures !d.Nothing? && remediesModal.hasModal ==>
                remediesModal.isOpen && remediesModal.overflow == "hidden"
      ensures d.OpenWithoutId? && remediesModal.hasModal && remediesModal.hasBody ==>
                remediesModal.view == Modal.LoginForm("", None)
      ensures d.OpenWithId? && remediesModal.hasModal && remediesModal.hasBody ==>
                match Modal.LookupResultOf(fetch(Trim(d.id)))
                case Found(c) => remediesModal.view == Modal.CustomerPanel(Modal.PanelOf(c, today))
                case NotFound(message) => remediesModal.view == Modal.LoginForm(Trim(d.id), Some(message))
    {
      match d {
        case Nothing =>
        case OpenWithoutId =>
          remediesModal.Open(None, fetch, today);
        case OpenWithId(id) =>
          remediesModal.Open(Some(id), fetch, today);
      }
    }
  }
}
