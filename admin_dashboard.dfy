/** The admin dashboard (`js/components/admin/AdminDashboard.js`): the
    customers it holds, their remedy counts and totals, and the rows of the
    customers table. The table body and the two counters are the only
    parts of the page kept; markup is reduced to the values it shows. */
module Dashboard {
  import opened Wrappers
  import opened JsString
  import opened Records

  // ---------------------------------------------------------------------
  // Per-record remedies, counts and totals
  // ---------------------------------------------------------------------

  /** `customer.remedies || [remedy1 … remedy5].filter(r => r && r.trim())`:
      a present list is taken whole, even empty and even with blank
      entries; the filter binds to the legacy array alone. */
  function DashboardRemedies(c: Customer): (r: seq<string>)
    ensures c.remedies.Some? ==> r == c.remedies.value
    ensures c.remedies.None? ==> r == KeepFilled(Legacy(c))
  {
    match c.remedies
    case Some(list) => list
    case None => KeepFilled(Legacy(c))
  }

  /** `remedies.length` for one record. */
  function RemedyCount(c: Customer): nat {
    |DashboardRemedies(c)|
  }

  /** A record with a list counts every entry of it; a legacy record counts
      its filled fields, at most five, and five exactly when all are
      filled. */
  lemma RemedyCountRule(c: Customer)
    ensures c.remedies.Some? ==> RemedyCount(c) == |c.remedies.value|
    ensures c.remedies.None? ==> RemedyCount(c) <= 5
    ensures c.remedies.None? ==>
              (RemedyCount(c) == 5 <==> forall k :: 0 <= k < 5 ==> Filled(Legacy(c)[k]))
  {
    KeepFilledKeepsAllIff(Legacy(c));
  }

  /** `database.reduce((count, customer) => count + remedies.length, 0)`,
      folded from the left as `reduce` does. */
  function TotalRemedies(db: seq<Customer>): nat
  {
    if db == [] then 0 else TotalRemedies(db[..|db| - 1]) + RemedyCount(db[|db| - 1])
  }

  /** The total over two lists put together is the sum of their totals. */
  lemma {:induction false} TotalRemediesAppend(a: seq<Customer>, b: seq<Customer>)
    ensures TotalRemedies(a + b) == TotalRemedies(a) + TotalRemedies(b)
    decreases |b|
  {
    if b == [] {
      assert a + b == a;
    } else {
      assert (a + b)[..|a + b| - 1] == a + b[..|b| - 1];
      assert (a + b)[|a + b| - 1] == b[|b| - 1];
      TotalRemediesAppend(a, b[..|b| - 1]);
    }
  }

  /** The total counts each record once: a record's count added in front
      of the rest. */
  lemma TotalRemediesCons(c: Customer, rest: seq<Customer>)
    ensures TotalRemedies([c] + rest) == RemedyCount(c) + TotalRemedies(rest)
  {
    TotalRemediesAppend([c], rest);
    assert [c][..0] == [];
  }

  /** With only legacy records the total is at most five per record. */
  lemma {:induction false} TotalRemediesLegacyBound(db: seq<Customer>)
    requires forall k :: 0 <= k < |db| ==> db[k].remedies.None?
    ensures TotalRemedies(db) <= 5 * |db|
    decreases |db|
  {
    if db != [] {
      TotalRemediesLegacyBound(db[..|db| - 1]);
      RemedyCountRule(db[|db| - 1]);
    }
  }

  /** What `updateStats` writes into the two counters. */
  datatype Stats = Stats(totalCustomers: nat, totalRemedies: nat)

  /** `updateStats()` over the held list: the number of records and the
      sum of their remedy counts. */
  function StatsOf(db: seq<Customer>): (s: Stats)
    ensures s.totalCustomers == |db|
    ensures db == [] ==> s.totalRemedies == 0
  {
    Stats(|db|, TotalRemedies(db))
  }

  // ---------------------------------------------------------------------
  // The count label and the onclick arguments
  // ---------------------------------------------------------------------

  /** `${remedyCount} Remedy${remedyCount !== 1 ? 'ies' : ''}`: every count
      other than one reads "Remedyies". */
  function CountLabel(n: nat): string {
    NatToString(n) + " Remedy" + (if n != 1 then "ies" else "")
  }

  /** For every count other than one the label ends in the misspelt word. */
  lemma CountLabelMisspelt(n: nat)
    requires n != 1
    ensures EndsWith(CountLabel(n), " Remedyies")
  {
    assert CountLabel(n) == NatToString(n) + " Remedyies";
  }

  /** The label as intended: "1 Remedy", otherwise "<n> Remedies". */
  function CountLabelIntended(n: nat): string {
    NatToString(n) + (if n == 1 then " Remedy" else " Remedies")
  }

  /** The intended label names the count, which `parseInt` reads back, and
      uses the singular exactly for one. */
  lemma CountLabelIntendedMeaning(n: nat)
    ensures ParseInt(CountLabelIntended(n)) == Some(n)
    ensures n == 1 <==> EndsWith(CountLabelIntended(n), " Remedy")
    ensures n != 1 <==> EndsWith(CountLabelIntended(n), " Remedies")
  {
    var digits := NatToString(n);
    var word := if n == 1 then " Remedy" else " Remedies";
    ParseIntDigitRun(digits, word);
    NatToStringValue(n);
    var text := CountLabelIntended(n);
    assert text == digits + word;
    assert text[|text| - |word|..] == word;
    if n == 1 {
      assert |digits| == 1;
      assert !EndsWith(text, " Remedies");
    } else {
      assert text[|text| - 1] == 's';
      assert !EndsWith(text, " Remedy") by {
        if |text| >= 7 { assert text[|text| - 7..][6] == 's'; }
      }
    }
  }

  /** A JavaScript line terminator that may not appear raw inside a string
      literal. */
  predicate IsLineBreak(c: char) { c == '\n' || c == '\r' }

  /** What the escape sequence `\c` stands for in a string literal; `None`
      for the escapes this model does not read (`\0`-`\9`, `\x`, `\u` and a
      line continuation). A backslash before U+2028 or U+2029 is also a line
      continuation in JavaScript; this model reads it as the character
      itself. */
  function Unescape(c: char): Option<char> {
    if c == 'n' then Some('\n')
    else if c == 'r' then Some('\r')
    else if c == 't' then Some('\t')
    else if c == 'b' then Some('\U{8}')
    else if c == 'f' then Some('\U{C}')
    else if c == 'v' then Some('\U{B}')
    else if IsDigit(c) || c == 'x' || c == 'u' || IsLineBreak(c) then None
    else Some(c)
  }

  function Prepend(c: char, rest: Option<string>): Option<string> {
    match rest
    case None => None
    case Some(s) => Some([c] + s)
  }

  /** The string value of a single-quoted JavaScript literal whose body is
      `t`, or `None` when `'…'` around `t` is not one whole literal: an
      unescaped quote ends it early, a raw line break is a syntax error, and
      a trailing backslash escapes the closing quote. */
  function ReadQuoted(t: string): Option<string>
    decreases |t|
  {
    if t == [] then Some([])
    else if t[0] == '\'' || IsLineBreak(t[0]) then None
    else if t[0] != '\\' then Prepend(t[0], ReadQuoted(t[1..]))
    else if |t| == 1 then None
    else match Unescape(t[1])
      case None => None
      case Some(c) => Prepend(c, ReadQuoted(t[2..]))
  }

  /** `s.replace(/'/g, "\\'")`: each quote gets a backslash, nothing else
      changes. */
  function EscapeQuotes(s: string): (r: string)
    ensures |r| == |s| + QuoteCount(s)
  {
    if s == [] then []
    else (if s[0] == '\'' then "\\'" else [s[0]]) + EscapeQuotes(s[1..])
  }

  /** How many single quotes `s` holds. */
  function QuoteCount(s: string): nat {
    if s == [] then 0 else (if s[0] == '\'' then 1 else 0) + QuoteCount(s[1..])
  }

  /** The literal body as the handler's script receives it, from the body
      as written into the `onclick="…"` attribute. The HTML parser reads
      the attribute first: a `"` ends it, cutting the literal short, and
      the character references `&amp;` and `&quot;` are decoded. `None`
      when the attribute is cut, and also for any other `&`, whose decoding
      this model does not follow. */
  function AttrDecode(t: string): Option<string>
    decreases |t|
  {
    if t == [] then Some([])
    else if t[0] == '"' then None
    else if t[0] != '&' then Prepend(t[0], AttrDecode(t[1..]))
    else if |t| >= 5 && t[1] == 'a' && t[2] == 'm' && t[3] == 'p' && t[4] == ';' then
      Prepend('&', AttrDecode(t[5..]))
    else if |t| >= 6 && t[1] == 'q' && t[2] == 'u' && t[3] == 'o' && t[4] == 't' && t[5] == ';' then
      Prepend('"', AttrDecode(t[6..]))
    else None
  }

  /** The id the handler is called with when `body` is written between the
      single quotes of the onclick attribute: the attribute is decoded,
      then the string literal is read. */
  function Handed(body: string): Option<string> {
    match AttrDecode(body)
    case None => None
    case Some(js) => ReadQuoted(js)
  }

  /** Text without `"` and `&` passes the attribute parse unchanged. */
  lemma {:induction false} AttrDecodePlain(t: string)
    requires forall k :: 0 <= k < |t| ==> t[k] != '"' && t[k] != '&'
    ensures AttrDecode(t) == Some(t)
  {
    if t != [] {
      AttrDecodePlain(t[1..]);
      assert t == [t[0]] + t[1..];
    }
  }

  /** Escaping quotes adds only backslashes. */
  lemma {:induction false} EscapeQuotesChars(s: string)
    ensures forall k :: 0 <= k < |EscapeQuotes(s)| ==> EscapeQuotes(s)[k] == '\\' || EscapeQuotes(s)[k] in s
  {
    if s != [] {
      EscapeQuotesChars(s[1..]);
      var head := if s[0] == '\'' then "\\'" else [s[0]];
      assert EscapeQuotes(s) == head + EscapeQuotes(s[1..]);
      forall k | 0 <= k < |EscapeQuotes(s)|
        ensures EscapeQuotes(s)[k] == '\\' || EscapeQuotes(s)[k] in s
      {
        if k >= |head| {
          assert EscapeQuotes(s)[k] == EscapeQuotes(s[1..])[k - |head|];
          assert forall c :: c in s[1..] ==> c in s;
        }
      }
    }
  }

  /** For an id with no backslash, no line break, no `"` and no `&`,
      escaping the quotes is enough: the handler receives the id. */
  lemma {:induction false} EscapeQuotesReadsBack(s: string)
    requires forall k :: 0 <= k < |s| ==> s[k] != '\\' && !IsLineBreak(s[k])
    requires forall k :: 0 <= k < |s| ==> s[k] != '"' && s[k] != '&'
    ensures Handed(EscapeQuotes(s)) == Some(s)
  {
    EscapeQuotesChars(s);
    AttrDecodePlain(EscapeQuotes(s));
    EscapeQuotesLiteral(s);
  }

  /** The string-literal half: with no backslash and no line break in the
      id, the escaped body reads back as the id. */
  lemma {:induction false} EscapeQuotesLiteral(s: string)
    requires forall k :: 0 <= k < |s| ==> s[k] != '\\' && !IsLineBreak(s[k])
    ensures ReadQuoted(EscapeQuotes(s)) == Some(s)
  {
    if s != [] {
      var rest := EscapeQuotes(s[1..]);
      EscapeQuotesLiteral(s[1..]);
      assert s == [s[0]] + s[1..];
      if s[0] == '\'' {
        var t := "\\'" + rest;
        assert EscapeQuotes(s) == t;
        assert t[0] == '\\' && t[1] == '\'' && t[2..] == rest;
      } else {
        var t := [s[0]] + rest;
        assert EscapeQuotes(s) == t;
        assert t[1..] == rest;
      }
    }
  }

  /** A backslash in an id is passed on unescaped: `a\n` (a, backslash, n)
      reaches the handler as `a` and a newline, and `a\` does not close its
      literal at all. */
  lemma EscapeQuotesLosesBackslash(s1: string, s2: string)
    requires s1 == ['a', '\\', 'n'] && s2 == ['a', '\\']
    ensures Handed(EscapeQuotes(s1)) == Some(['a', '\n']) != Some(s1)
    ensures Handed(EscapeQuotes(s2)) == None
  {
    assert s1[1..][1..] == s1[2..] && s1[2..][1..] == [];
    assert EscapeQuotes(s1[2..]) == s1[2..];
    assert EscapeQuotes(s1[1..]) == s1[1..];
    assert EscapeQuotes(s1) == s1;
    AttrDecodePlain(s1);
    assert s1[1..][2..] == [];
    assert ['\n'] + [] == ['\n'];
    assert ReadQuoted(s1[1..]) == Some(['\n']);
    assert ['a'] + ['\n'] == ['a', '\n'];
    assert s2[1..][1..] == [];
    assert EscapeQuotes(s2[1..]) == s2[1..];
    assert EscapeQuotes(s2) == s2;
    AttrDecodePlain(s2);
    assert ReadQuoted(s2[1..]) == None;
  }

  /** The attribute layer is not escaped at all: an id holding `"` cuts
      the onclick attribute short, so the handler is never called. */
  lemma EscapeQuotesCutsAttribute(s: string)
    requires s == ['a', '"']
    ensures Handed(EscapeQuotes(s)) == None
  {
    EscapeQuotesUnchanged(s);
    assert s[1..][0] == '"';
    assert AttrDecode(s[1..]) == None;
  }

  /** An id holding `&amp;` reaches the handler as `&`. */
  lemma EscapeQuotesDecodesAmpersand(s: string)
    requires s == ['&', 'a', 'm', 'p', ';']
    ensures Handed(EscapeQuotes(s)) == Some(['&']) != Some(s)
  {
    EscapeQuotesUnchanged(s);
    assert s[5..] == [];
    assert AttrDecode(s[5..]) == Some([]);
    assert AttrDecode(s) == Prepend('&', Some([]));
    assert ['&'] + [] == ['&'];
    EscapeQuotesUnchanged(['&']);
    EscapeQuotesLiteral(['&']);
  }

  /** A text without a single quote is left as it is. */
  lemma {:induction false} EscapeQuotesUnchanged(s: string)
    requires forall k :: 0 <= k < |s| ==> s[k] != '\''
    ensures EscapeQuotes(s) == s
  {
    if s != [] {
      EscapeQuotesUnchanged(s[1..]);
      assert s == [s[0]] + s[1..];
    }
  }

  /** The escaping the onclick arguments need as string literals:
      backslashes and quotes get a backslash, and line breaks are written
      as `\n` and `\r`. */
  function EscapeForQuoted(s: string): string {
    if s == [] then []
    else
      var c := s[0];
      (if c == '\\' then "\\\\"
       else if c == '\'' then "\\'"
       else if c == '\n' then "\\n"
       else if c == '\r' then "\\r"
       else [c]) + EscapeForQuoted(s[1..])
  }

  /** Every id survives the string-literal escaping: the literal reads back
      as the id itself. */
  lemma {:induction false} EscapeForQuotedReadsBack(s: string)
    ensures ReadQuoted(EscapeForQuoted(s)) == Some(s)
  {
    if s != [] {
      var rest := EscapeForQuoted(s[1..]);
      EscapeForQuotedReadsBack(s[1..]);
      var c := s[0];
      assert s == [c] + s[1..];
      if c == '\\' || c == '\'' || c == '\n' || c == '\r' {
        var code := if c == '\\' then '\\' else if c == '\'' then '\'' else if c == '\n' then 'n' else 'r';
        var t := ['\\', code] + rest;
        assert EscapeForQuoted(s) == t;
        assert t[2..] == rest;
      } else {
        var t := [c] + rest;
        assert EscapeForQuoted(s) == t;
        assert t[1..] == rest;
      }
    }
  }

  /** The attribute escaping: `&` as `&amp;` and `"` as `&quot;`. */
  function HtmlEscape(t: string): string {
    if t == [] then []
    else
      (if t[0] == '&' then "&amp;" else if t[0] == '"' then "&quot;" else [t[0]])
      + HtmlEscape(t[1..])
  }

  /** The attribute parse undoes the attribute escaping. */
  lemma {:induction false} HtmlEscapeReadsBack(t: string)
    ensures AttrDecode(HtmlEscape(t)) == Some(t)
  {
    if t != [] {
      var rest := HtmlEscape(t[1..]);
      HtmlEscapeReadsBack(t[1..]);
      assert t == [t[0]] + t[1..];
      if t[0] == '&' {
        var u := "&amp;" + rest;
        assert HtmlEscape(t) == u;
        assert u[5..] == rest;
      } else if t[0] == '"' {
        var u := "&quot;" + rest;
        assert HtmlEscape(t) == u;
        assert u[6..] == rest;
      } else {
        var u := [t[0]] + rest;
        assert HtmlEscape(t) == u;
        assert u[1..] == rest;
      }
    }
  }

  /** The corrected argument text: escaped for the string literal, then
      for the attribute around it. */
  function EscapeForOnclick(s: string): string {
    HtmlEscape(EscapeForQuoted(s))
  }

  /** Every id reaches the handler unchanged through the corrected
      escaping. */
  lemma EscapeForOnclickReadsBack(s: string)
    ensures Handed(EscapeForOnclick(s)) == Some(s)
  {
    HtmlEscapeReadsBack(EscapeForQuoted(s));
    EscapeForQuotedReadsBack(s);
  }

  // ---------------------------------------------------------------------
  // Table rows
  // ---------------------------------------------------------------------

  /** One row of the customers table: the three text cells, the remedy
      count its label is made from, and the id the edit and delete buttons
      hand on. The delete button's onclick also passes `_id || ''`, but
      `confirmDeleteCustomer(customerId)` forwards only its first argument,
      so the record is deleted by its customer id. */
  datatype Row = Row(customerIdCell: string, nameCell: string, dobCell: string,
                     remedyCount: nat, editTarget: string, deleteTarget: string)

  /** `customer.customerId || ''`, the argument both buttons forward. */
  function ButtonId(c: Customer): (id: string)
    ensures id == "" <==> FalsyProp(c.customerId)
    ensures id != "" ==> c.customerId == Str(id)
  {
    if FalsyProp(c.customerId) then "" else c.customerId.s
  }

  /** The cells print each property as a template does (an absent one as
      "undefined", a `null` one as "null"); both buttons act on the
      customer id, never on `_id`. `editTarget` and `deleteTarget` are the
      id before escaping: the handler receives
      `Handed(EscapeQuotes(ButtonId(c)))`, which equals it only under the
      conditions of `EscapeQuotesReadsBack`. */
  function RowOf(c: Customer): (row: Row)
    ensures row.remedyCount == RemedyCount(c)
    ensures row.customerIdCell == Template(c.customerId) && row.dobCell == Template(c.dob)
    ensures !FalsyProp(c.name) ==> row.nameCell == c.name.s
    ensures FalsyProp(c.name) ==> row.nameCell == Template(c.customerName)
    ensures row.editTarget == row.deleteTarget == ButtonId(c)
  {
    var target := ButtonId(c);
    Row(Template(c.customerId), Template(Or(c.name, c.customerName)), Template(c.dob),
        RemedyCount(c), target, target)
  }

  /** What the table body shows. */
  datatype Table = Blank | Placeholder | Rows(rows: seq<Row>)

  /** The table for a list: the placeholder row when it is empty,
      otherwise one row per record, in order. */
  function TableFor(db: seq<Customer>): (t: Table)
    ensures t.Placeholder? <==> db == []
    ensures t.Rows? ==> |t.rows| == |db| && forall k :: 0 <= k < |db| ==> t.rows[k] == RowOf(db[k])
    ensures t != Blank
  {
    if db == [] then Placeholder else Rows(seq(|db|, k requires 0 <= k < |db| => RowOf(db[k])))
  }

  /** The table's row counts add up to the remedies counter. */
  lemma {:induction false} RowsAddUpToTotal(db: seq<Customer>)
    requires db != []
    ensures RowCountSum(TableFor(db).rows) == StatsOf(db).totalRemedies
    decreases |db|
  {
    var rows := TableFor(db).rows;
    var init := db[..|db| - 1];
    assert rows[|rows| - 1] == RowOf(db[|db| - 1]);
    assert RowCountSum(rows) == RowCountSum(rows[..|rows| - 1]) + RemedyCount(db[|db| - 1]);
    assert TotalRemedies(db) == TotalRemedies(init) + RemedyCount(db[|db| - 1]);
    if |db| > 1 {
      RowsAddUpToTotal(init);
      assert rows[..|rows| - 1] == TableFor(init).rows;
    } else {
      assert rows[..|rows| - 1] == [];
      assert init == [];
    }
  }

  /** The sum of the rows' remedy counts. */
  function RowCountSum(rows: seq<Row>): nat {
    if rows == [] then 0 else RowCountSum(rows[..|rows| - 1]) + rows[|rows| - 1].remedyCount
  }

  // ---------------------------------------------------------------------
  // The component
  // ---------------------------------------------------------------------

  class AdminDashboard {
    /** `this.customers`. */
    var customers: seq<Customer>
    /** Whether `#customersTableBody` was found. */
    var hasTableBody: bool
    /** What the table body shows. */
    var table: Table
    /** What the two counters show; `None` before the first `updateStats`. */
    var stats: Option<Stats>
    /** Whether `init` sent the browser back to the login page. */
    var redirected: bool

    /** `new AdminDashboard()` and its `init`: a visitor who is not logged
        in is sent to the login page and nothing else happens; otherwise
        the counters show the empty list. The list request that `init`
        starts completes later, in `LoadAndRender`. */
    constructor (loggedIn: bool, tableBodyExists: bool)
      ensures customers == [] && table == Blank
      ensures redirected == !loggedIn
      ensures hasTableBody == (loggedIn && tableBodyExists)
      ensures stats == if loggedIn then Some(Stats(0, 0)) else None
    {
      customers := [];
      table := Blank;
      stats := None;
      hasTableBody := false;
      redirected := false;
      new;
      if !loggedIn {
        redirected := true;
      } else {
        hasTableBody := tableBodyExists;
        UpdateStats();
      }
    }

    /** `updateStats()`. */
    method UpdateStats()
      modifies this`stats
      ensures stats == Some(StatsOf(customers))
    {
      stats := Some(StatsOf(customers));
    }

    /** `renderCustomersTable(customers)`: nothing without a table body;
        otherwise the argument unless it is `null`/`undefined`, else the
        held list. */
    method RenderCustomersTable(arg: Option<seq<Customer>>)
      modifies this`table
      ensures !hasTableBody ==> table == old(table)
      ensures hasTableBody ==> table == TableFor(if arg.Some? then arg.value else customers)
    {
      if !hasTableBody {
        return;
      }
      var database := if arg.Some? then arg.value else customers;
      table := TableFor(database);
    }

    /** `loadAndRender()` once the list request settles: an array response
        is held, anything else and a failure hold `[]`; then the table and
        the counters are redrawn from the held list. */
    method LoadAndRender(response: Outcome<ListResponse>)
      modifies this`customers, this`table, this`stats
      ensures customers == if response.Returned? then ArrayOrEmpty(response.value) else []
      ensures hasTableBody ==> table == TableFor(customers)
      ensures !hasTableBody ==> table == old(table)
      ensures stats == Some(StatsOf(customers))
    {
      match response {
        case Returned(list) =>
          customers := ArrayOrEmpty(list);
        case Threw(_) =>
          customers := [];
      }
      RenderCustomersTable(None);
      UpdateStats();
    }
  }
}
