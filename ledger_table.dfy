/**
 * The store's contents as values: the transaction dictionary (a map plus the
 * order in which its keys were first inserted, as a Python dict iterates),
 * loading a file given as its lines, the derived footer and the text `flush` writes.
 */
module LedgerTable {
  import opened Wrappers
  import opened FieldCodec
  import opened Records

  /** A Python dict of transactions keyed by counter: the map and its insertion order. */
  datatype Table = Table(entries: map<int, Transaction>, order: seq<int>)

  predicate Distinct(s: seq<int>) {
    forall i, j :: 0 <= i < j < |s| ==> s[i] != s[j]
  }

  /** The order lists every key of the map once, and nothing else. */
  ghost predicate ValidTable(t: Table) {
    Distinct(t.order)
    && (forall i :: 0 <= i < |t.order| ==> t.order[i] in t.entries)
    && (forall k :: k in t.entries ==> k in t.order)
  }

  /** What the store holds: a well-formed table whose transactions all carry a
      counter, so that every one of them can be formatted. */
  ghost predicate Stored(t: Table) {
    ValidTable(t) && forall i :: 0 <= i < |t.order| ==> t.entries[t.order[i]].counter.Some?
  }

  const EmptyTable := Table(map[], [])

  /** `d[k] = x`: the key now maps to `x`, every other key keeps its entry, the size
      grows by one exactly when the key is new, and a new key goes to the end of the
      order while an overwritten key keeps its place. */
  function Put(t: Table, k: int, x: Transaction): (r: Table)
    requires ValidTable(t)
    ensures ValidTable(r)
    ensures x.counter.Some? && Stored(t) ==> Stored(r)
    ensures k in r.entries && r.entries[k] == x
    ensures forall j :: j != k ==> (j in r.entries <==> j in t.entries)
    ensures forall j :: j != k && j in t.entries ==> r.entries[j] == t.entries[j]
    ensures |r.entries| == if k in t.entries then |t.entries| else |t.entries| + 1
    ensures |t.order| <= |r.order| && r.order[..|t.order|] == t.order
  {
    Table(t.entries[k := x], if k in t.entries then t.order else t.order + [k])
  }

  // ---------------------------------------------------------------- Footer

  /** The sum of the amounts stored under `ks`, in that order. */
  function SumAmounts(m: map<int, Transaction>, ks: seq<int>): int
    requires forall i :: 0 <= i < |ks| ==> ks[i] in m
  {
    if ks == [] then 0 else SumAmounts(m, ks[..|ks| - 1]) + m[ks[|ks| - 1]].amount
  }

  /** The control sum: every stored amount added up, 0 for an empty table. */
  function ControlSum(t: Table): int
    requires ValidTable(t)
  {
    SumAmounts(t.entries, t.order)
  }

  /** What `save_footer` returns: the number of stored transactions and their control
      sum. Its fields are assigned after construction, so no width check applies. */
  function DeriveFooter(t: Table): Footer
    requires ValidTable(t)
  {
    Footer(|t.entries|, ControlSum(t))
  }

  lemma {:induction false} SumAgree(m1: map<int, Transaction>, m2: map<int, Transaction>, ks: seq<int>)
    requires forall i :: 0 <= i < |ks| ==> ks[i] in m1 && ks[i] in m2 && m1[ks[i]].amount == m2[ks[i]].amount
    ensures SumAmounts(m1, ks) == SumAmounts(m2, ks)
  {
    if ks != [] {
      SumAgree(m1, m2, ks[..|ks| - 1]);
    }
  }

  lemma {:induction false} SumOverwrite(m: map<int, Transaction>, ks: seq<int>, k: int, x: Transaction)
    requires Distinct(ks) && k in ks && k in m
    requires forall i :: 0 <= i < |ks| ==> ks[i] in m
    ensures SumAmounts(m[k := x], ks) == SumAmounts(m, ks) - m[k].amount + x.amount
  {
    var init := ks[..|ks| - 1];
    if ks[|ks| - 1] == k {
      assert k !in init;
      SumAgree(m[k := x], m, init);
    } else {
      assert k in init;
      SumOverwrite(m, init, k, x);
    }
  }

  /** The control sum follows every store: the new amount is added and, when the key
      was already present, the amount it replaces is taken out. */
  lemma ControlSumPut(t: Table, k: int, x: Transaction)
    requires ValidTable(t)
    ensures ControlSum(Put(t, k, x))
            == ControlSum(t) + x.amount - (if k in t.entries then t.entries[k].amount else 0)
  {
    var m := t.entries[k := x];
    if k in t.entries {
      assert Put(t, k, x) == Table(m, t.order);
      SumOverwrite(t.entries, t.order, k, x);
    } else {
      var ks := t.order + [k];
      assert Put(t, k, x) == Table(m, ks);
      assert ks[..|ks| - 1] == t.order;
      forall i | 0 <= i < |t.order|
        ensures t.order[i] in m && m[t.order[i]].amount == t.entries[t.order[i]].amount
      {
        assert t.order[i] != k;
      }
      SumAgree(m, t.entries, t.order);
    }
  }

  /** The derived footer passes the footer's own width checks exactly when the table
      holds at most 999999 transactions and the control sum fits 12 characters. */
  lemma DerivedFooterValid(t: Table)
    requires ValidTable(t)
    ensures ValidFooter(DeriveFooter(t))
            <==> |t.entries| <= 999999 && -99999999999 <= ControlSum(t) <= 999999999999
  {
    ValidFooterRange(DeriveFooter(t));
  }

  // ------------------------------------------------------------------ Load

  /** Every transaction of the sequence carries a counter. */
  predicate Counted(xs: seq<Transaction>) {
    forall i :: 0 <= i < |xs| ==> xs[i].counter.Some?
  }

  /** The parsing half of `read_transactions`: every line parsed in turn, failing with
      the error of the first line that does not parse. */
  function ParseAll(lines: seq<string>): (r: Result<seq<Transaction>, Error>)
    ensures r.Ok? ==> |r.value| == |lines| && Counted(r.value)
    decreases |lines|
  {
    if lines == [] then Ok([])
    else match ParseAll(lines[..|lines| - 1])
      case Err(e) => Err(e)
      case Ok(xs) =>
        match TransactionFromText(lines[|lines| - 1])
        case Err(e) => Err(e)
        case Ok(x) => Ok(xs + [x])
  }

  /** Parsing fails exactly when some line does not parse. */
  lemma ParseAllOk(lines: seq<string>)
    ensures ParseAll(lines).Ok? <==> forall i :: 0 <= i < |lines| ==> TransactionFromText(lines[i]).Ok?
  {
    if ParseAll(lines).Ok? {
      forall i | 0 <= i < |lines|
        ensures TransactionFromText(lines[i]).Ok?
      {
        ParseAllAt(lines, i);
      }
    } else {
      ParseAllErr(lines);
    }
  }

  /** A successful parse is the parse of all lines but the last, then the last line's
      transaction. */
  lemma ParseAllSnoc(lines: seq<string>)
    requires ParseAll(lines).Ok? && lines != []
    ensures ParseAll(lines[..|lines| - 1]).Ok? && TransactionFromText(lines[|lines| - 1]).Ok?
    ensures ParseAll(lines).value
            == ParseAll(lines[..|lines| - 1]).value + [TransactionFromText(lines[|lines| - 1]).value]
  {
  }

  /** The `i`-th parsed transaction is what the `i`-th line parses to. */
  lemma {:induction false} ParseAllAt(lines: seq<string>, i: nat)
    requires ParseAll(lines).Ok? && i < |lines|
    ensures TransactionFromText(lines[i]) == Ok(ParseAll(lines).value[i])
    decreases |lines|
  {
    var init := lines[..|lines| - 1];
    ParseAllSnoc(lines);
    if i < |init| {
      assert init[i] == lines[i];
      ParseAllAt(init, i);
    }
  }

  /** A failed parse has a line that does not parse. */
  lemma {:induction false} ParseAllErr(lines: seq<string>)
    requires ParseAll(lines).Err?
    ensures exists i :: 0 <= i < |lines| && TransactionFromText(lines[i]).Err?
    decreases |lines|
  {
    var init := lines[..|lines| - 1];
    if ParseAll(init).Err? {
      ParseAllErr(init);
      var i :| 0 <= i < |init| && TransactionFromText(init[i]).Err?;
      assert init[i] == lines[i];
    }
  }

  /** A line that fails among the first `n` makes the whole parse fail with its error. */
  lemma {:induction false} ParseAllPrefix(lines: seq<string>, n: nat)
    requires n <= |lines| && ParseAll(lines[..n]).Err?
    ensures ParseAll(lines) == ParseAll(lines[..n])
    decreases |lines|
  {
    if n < |lines| {
      var init := lines[..|lines| - 1];
      assert init[..n] == lines[..n];
      ParseAllPrefix(init, n);
    } else {
      assert lines[..n] == lines;
    }
  }

  /** Parsing one more line: its error ends the whole parse, or its transaction is appended. */
  lemma ParseAllStep(lines: seq<string>, i: nat)
    requires i < |lines| && ParseAll(lines[..i]).Ok?
    ensures TransactionFromText(lines[i]).Err? ==> ParseAll(lines) == Err(TransactionFromText(lines[i]).error)
    ensures TransactionFromText(lines[i]).Ok? ==>
              ParseAll(lines[..i + 1]) == Ok(ParseAll(lines[..i]).value + [TransactionFromText(lines[i]).value])
  {
    assert lines[..i + 1][..i] == lines[..i];
    assert lines[..i + 1][i] == lines[i];
    if TransactionFromText(lines[i]).Err? {
      ParseAllPrefix(lines, i + 1);
    }
  }

  /** The storing half of `read_transactions`: every parsed transaction put under its own
      counter, in order, so a later transaction with the same counter replaces an earlier one. */
  function InsertAll(acc: Table, xs: seq<Transaction>): (r: Table)
    requires Stored(acc) && Counted(xs)
    ensures Stored(r)
    decreases |xs|
  {
    if xs == [] then acc
    else
      var x := xs[|xs| - 1];
      Put(InsertAll(acc, xs[..|xs| - 1]), x.counter.value, x)
  }

  /** Storing one more parsed transaction puts it under its counter. */
  lemma InsertAllStep(acc: Table, xs: seq<Transaction>, x: Transaction)
    requires Stored(acc) && Counted(xs) && x.counter.Some?
    ensures Counted(xs + [x])
    ensures InsertAll(acc, xs + [x]) == Put(InsertAll(acc, xs), x.counter.value, x)
  {
    assert (xs + [x])[..|xs|] == xs;
  }

  /** Some transaction of the sequence carries counter `k`. */
  predicate HasCounter(xs: seq<Transaction>, k: int) {
    exists i :: 0 <= i < |xs| && xs[i].counter == Some(k)
  }

  lemma HasCounterLast(xs: seq<Transaction>, k: int)
    requires xs != []
    ensures HasCounter(xs, k) <==> HasCounter(xs[..|xs| - 1], k) || xs[|xs| - 1].counter == Some(k)
  {
    var init := xs[..|xs| - 1];
    if HasCounter(xs, k) {
      var i :| 0 <= i < |xs| && xs[i].counter == Some(k);
      if i < |init| {
        assert init[i] == xs[i];
      }
    }
    if HasCounter(init, k) {
      var i :| 0 <= i < |init| && init[i].counter == Some(k);
      assert init[i] == xs[i];
    }
  }

  /** After loading, the keys are the ones already present and the counters of the
      parsed transactions, and nothing else. */
  lemma {:induction false} InsertAllKeys(acc: Table, xs: seq<Transaction>, k: int)
    requires Stored(acc) && Counted(xs)
    ensures k in InsertAll(acc, xs).entries <==> k in acc.entries || HasCounter(xs, k)
    decreases |xs|
  {
    if xs != [] {
      InsertAllKeys(acc, xs[..|xs| - 1], k);
      HasCounterLast(xs, k);
    }
  }

  /** The last transaction that carries a counter is the one stored under it. */
  lemma {:induction false} InsertAllLastWins(acc: Table, xs: seq<Transaction>, i: nat)
    requires Stored(acc) && Counted(xs) && i < |xs|
    requires forall j :: i < j < |xs| ==> xs[j].counter != xs[i].counter
    ensures xs[i].counter.value in InsertAll(acc, xs).entries
    ensures InsertAll(acc, xs).entries[xs[i].counter.value] == xs[i]
    decreases |xs|
  {
    var init := xs[..|xs| - 1];
    var last := xs[|xs| - 1];
    if i < |init| {
      forall j | i < j < |init|
        ensures init[j].counter != init[i].counter
      {
        assert init[j] == xs[j];
      }
      InsertAllLastWins(acc, init, i);
      PutOther(InsertAll(acc, init), last.counter.value, last, init[i].counter.value);
    }
  }

  /** A store under one key leaves every other key's entry alone. */
  lemma PutOther(t: Table, k: int, x: Transaction, j: int)
    requires ValidTable(t) && j in t.entries && j != k
    ensures j in Put(t, k, x).entries && Put(t, k, x).entries[j] == t.entries[j]
  {
  }

  /** A loaded file: its header, its transactions and the footer found on its last line. */
  datatype Ledger = Ledger(header: Header, table: Table, footer: Footer)

  function FirstLine(lines: seq<string>): string {
    if |lines| > 0 then lines[0] else ""
  }

  function LastLine(lines: seq<string>): string {
    if |lines| > 0 then lines[|lines| - 1] else ""
  }

  /** The transaction lines: everything between the first and the last line. */
  function BodyLines(lines: seq<string>): (body: seq<string>)
    ensures |lines| >= 2 ==> (|body| == |lines| - 2
                              && forall i :: 0 <= i < |body| ==> body[i] == lines[i + 1])
    ensures |lines| < 2 ==> body == []
  {
    if |lines| >= 2 then lines[1..|lines| - 1] else []
  }

  /** `read_header`: the first line cut to 120 characters; it always parses. */
  function ReadHeader(lines: seq<string>): (h: Header)
    ensures ValidHeader(h)
  {
    HeaderFromText(Slice(FirstLine(lines), 0, 120)).value
  }

  /** `read_footer`: the last line parsed as a footer. */
  function ReadFooter(lines: seq<string>): Result<Footer, Error> {
    FooterFromText(LastLine(lines))
  }

  /** Building a store from a file: the header, then the transactions, then the footer.
      It fails exactly when a transaction line or the footer line does not parse. */
  function Load(lines: seq<string>): (r: Result<Ledger, Error>)
    ensures r.Ok? <==> ParseAll(BodyLines(lines)).Ok? && ReadFooter(lines).Ok?
    ensures r.Ok? ==> ValidHeader(r.value.header) && Stored(r.value.table) && ValidFooter(r.value.footer)
  {
    var h := ReadHeader(lines);
    match ParseAll(BodyLines(lines))
    case Err(e) => Err(e)
    case Ok(xs) =>
      match ReadFooter(lines)
      case Err(e) => Err(e)
      case Ok(f) => Ok(Ledger(h, InsertAll(EmptyTable, xs), f))
  }

  /** When a load succeeds, it yields what each of its parts yields. */
  lemma LoadParts(lines: seq<string>)
    ensures ParseAll(BodyLines(lines)).Err? ==> Load(lines) == Err(ParseAll(BodyLines(lines)).error)
    ensures ParseAll(BodyLines(lines)).Ok? && ReadFooter(lines).Err? ==> Load(lines) == Err(ReadFooter(lines).error)
    ensures ParseAll(BodyLines(lines)).Ok? && ReadFooter(lines).Ok? ==>
              Load(lines) == Ok(Ledger(ReadHeader(lines),
                                       InsertAll(EmptyTable, ParseAll(BodyLines(lines)).value),
                                       ReadFooter(lines).value))
  {
  }

  /** A load reports the first transaction line that does not parse, whatever the lines
      after it and the footer line hold. */
  lemma LoadFirstError(lines: seq<string>, n: nat)
    requires n < |BodyLines(lines)|
    requires forall i :: 0 <= i < n ==> TransactionFromText(BodyLines(lines)[i]).Ok?
    requires TransactionFromText(BodyLines(lines)[n]).Err?
    ensures Load(lines) == Err(TransactionFromText(BodyLines(lines)[n]).error)
  {
    var body := BodyLines(lines);
    assert forall i :: 0 <= i < n ==> body[..n][i] == body[i];
    ParseAllOk(body[..n]);
    ParseAllStep(body, n);
    LoadParts(lines);
  }

  // ----------------------------------------------------------------- Flush

  /** One stored transaction as `flush` writes it: its text and a line feed. */
  function TransactionLine(x: Transaction): string
    requires x.counter.Some?
  {
    FormatTransaction(x).value + "\n"
  }

  /** The keys all present, with transactions that carry a counter. */
  predicate Writable(m: map<int, Transaction>, ks: seq<int>) {
    forall i :: 0 <= i < |ks| ==> ks[i] in m && m[ks[i]].counter.Some?
  }

  /** The lines of the transactions stored under `ks`, in that order. */
  function LinesOf(m: map<int, Transaction>, ks: seq<int>): (ls: seq<string>)
    requires Writable(m, ks)
    ensures |ls| == |ks|
  {
    if ks == [] then [] else LinesOf(m, ks[..|ks| - 1]) + [TransactionLine(m[ks[|ks| - 1]])]
  }

  /** The lines `flush` writes: the header, every stored transaction in insertion order,
      then the freshly derived footer (never the footer that was read), each ending in "\n". */
  function FlushLines(h: Header, t: Table): (ls: seq<string>)
    requires Stored(t)
    ensures |ls| == |t.order| + 2
  {
    [FormatHeader(h) + "\n"] + LinesOf(t.entries, t.order) + [FormatFooter(DeriveFooter(t)) + "\n"]
  }

  /** The lines written one after another. */
  function Join(ls: seq<string>): string {
    if ls == [] then "" else Join(ls[..|ls| - 1]) + ls[|ls| - 1]
  }

  lemma JoinAppend(ls: seq<string>, x: string)
    ensures Join(ls + [x]) == Join(ls) + x
  {
    assert (ls + [x])[..|ls|] == ls;
  }

  /** Everything `flush` writes. */
  function FlushText(h: Header, t: Table): string
    requires Stored(t)
  {
    Join(FlushLines(h, t))
  }

  /** Writing the next transaction's line extends the text written so far by that line. */
  lemma FlushStep(first: string, m: map<int, Transaction>, ks: seq<int>, i: nat)
    requires Writable(m, ks) && i < |ks|
    ensures Join([first] + LinesOf(m, ks[..i + 1]))
            == Join([first] + LinesOf(m, ks[..i])) + TransactionLine(m[ks[i]])
  {
    assert ks[..i + 1][..i] == ks[..i];
    var done := [first] + LinesOf(m, ks[..i]);
    assert [first] + LinesOf(m, ks[..i + 1]) == done + [TransactionLine(m[ks[i]])];
    JoinAppend(done, TransactionLine(m[ks[i]]));
  }

  /** The text `flush` writes, split into the header and transaction lines, and the footer line. */
  lemma FlushTextParts(h: Header, t: Table)
    requires Stored(t)
    ensures FlushText(h, t)
            == Join([FormatHeader(h) + "\n"] + LinesOf(t.entries, t.order)) + (FormatFooter(DeriveFooter(t)) + "\n")
  {
    JoinAppend([FormatHeader(h) + "\n"] + LinesOf(t.entries, t.order), FormatFooter(DeriveFooter(t)) + "\n");
  }

  // ------------------------------------------------------- Flush, then load

  /** A transaction whose line parses back to itself: valid, its counter fitting 6
      characters and its currency exactly 3. */
  predicate LineRoundTrips(x: Transaction) {
    ValidTransaction(x) && CounterFits(x) && |x.currency| == CurrencyWidth
  }

  /** Tables that a flush writes in a form that loads back unchanged: every key is its
      transaction's own counter, every transaction's line parses back to it, and the
      derived footer is valid. */
  ghost predicate Persistable(t: Table) {
    KeyedByCounter(t) && ValidFooter(DeriveFooter(t))
    && forall k :: k in t.entries ==> LineRoundTrips(t.entries[k])
  }

  /** Every transaction is stored under its own counter. */
  ghost predicate KeyedByCounter(t: Table) {
    Stored(t) && forall k :: k in t.entries ==> t.entries[k].counter == Some(k)
  }

  lemma TransactionLineParses(x: Transaction)
    requires LineRoundTrips(x)
    ensures TransactionFromText(TransactionLine(x)) == Ok(x)
  {
    var text := FormatTransaction(x).value;
    TransactionRoundTrip(x);
    assert Slice(text + "\n", 2, 8) == Slice(text, 2, 8);
    assert Slice(text + "\n", 8, 20) == Slice(text, 8, 20);
    assert Slice(text + "\n", 20, 23) == Slice(text, 20, 23);
  }

  /** The transactions stored under `ks`, in that order. */
  function ValuesOf(m: map<int, Transaction>, ks: seq<int>): (xs: seq<Transaction>)
    requires Writable(m, ks)
    ensures |xs| == |ks| && Counted(xs)
  {
    if ks == [] then [] else ValuesOf(m, ks[..|ks| - 1]) + [m[ks[|ks| - 1]]]
  }

  /** The lines written for `ks` parse back to the transactions stored under `ks`. */
  lemma {:induction false} ParseLinesOf(m: map<int, Transaction>, ks: seq<int>)
    requires Writable(m, ks) && forall i :: 0 <= i < |ks| ==> LineRoundTrips(m[ks[i]])
    ensures ParseAll(LinesOf(m, ks)) == Ok(ValuesOf(m, ks))
    decreases |ks|
  {
    if ks != [] {
      var init := ks[..|ks| - 1];
      var last := m[ks[|ks| - 1]];
      var ls := LinesOf(m, ks);
      assert ls == LinesOf(m, init) + [TransactionLine(last)];
      assert ls[..|ls| - 1] == LinesOf(m, init);
      ParseLinesOf(m, init);
      TransactionLineParses(last);
    }
  }

  /** The entries of `m` under the keys `ks`, entered in that order. */
  function Restrict(m: map<int, Transaction>, ks: seq<int>): (r: map<int, Transaction>)
    requires forall i :: 0 <= i < |ks| ==> ks[i] in m
    ensures forall j :: j in r <==> j in ks
    ensures forall j :: j in r ==> r[j] == m[j]
    decreases |ks|
  {
    if ks == [] then map[]
    else
      var last := ks[|ks| - 1];
      assert ks == ks[..|ks| - 1] + [last];
      Restrict(m, ks[..|ks| - 1])[last := m[last]]
  }

  /** The first `i` transactions of a table in insertion order, as a table of their own. */
  function Prefix(t: Table, i: nat): (p: Table)
    requires Stored(t) && i <= |t.order|
    ensures Stored(p)
  {
    Table(Restrict(t.entries, t.order[..i]), t.order[..i])
  }

  /** Storing the next transaction in insertion order extends the prefix by one. */
  lemma PutPrefix(t: Table, i: nat)
    requires Stored(t) && i < |t.order|
    ensures Put(Prefix(t, i), t.order[i], t.entries[t.order[i]]) == Prefix(t, i + 1)
  {
    var k := t.order[i];
    var before := t.order[..i];
    assert t.order[..i + 1] == before + [k];
    assert (before + [k])[..i] == before;
    assert k !in before;
  }

  /** The prefix of the whole order is the table itself. */
  lemma PrefixAll(t: Table)
    requires Stored(t)
    ensures Prefix(t, |t.order|) == t
  {
    assert t.order[..|t.order|] == t.order;
    var r := Restrict(t.entries, t.order);
    forall j | j in t.entries
      ensures j in r
    {
      assert j in t.order;
    }
    assert r == t.entries;
  }

  /** The transactions of one more key. */
  lemma ValuesOfStep(m: map<int, Transaction>, ks: seq<int>, i: nat)
    requires Writable(m, ks) && i < |ks|
    ensures ValuesOf(m, ks[..i + 1]) == ValuesOf(m, ks[..i]) + [m[ks[i]]]
  {
    assert ks[..i + 1][..i] == ks[..i];
  }

  /** Storing the first `i` transactions of a table keyed by counter, in insertion order,
      rebuilds its first `i` entries. */
  lemma {:induction false} InsertValuesOf(t: Table, i: nat)
    requires KeyedByCounter(t) && i <= |t.order|
    ensures InsertAll(EmptyTable, ValuesOf(t.entries, t.order[..i])) == Prefix(t, i)
  {
    if i == 0 {
      assert t.order[..0] == [];
      assert Prefix(t, 0) == EmptyTable;
    } else {
      var k := t.order[i - 1];
      var prev := ValuesOf(t.entries, t.order[..i - 1]);
      var x := t.entries[k];
      ValuesOfStep(t.entries, t.order, i - 1);
      InsertAllStep(EmptyTable, prev, x);
      InsertValuesOf(t, i - 1);
      PutPrefix(t, i - 1);
      assert x.counter.value == k;
    }
  }

  lemma ReadHeaderAfterFlush(h: Header, t: Table)
    requires ValidHeader(h) && Stored(t)
    ensures ReadHeader(FlushLines(h, t)) == h
  {
    var head := FormatHeader(h);
    assert FirstLine(FlushLines(h, t)) == head + "\n";
    assert Slice(head + "\n", 0, 120) == head;
    HeaderRoundTrip(h);
  }

  lemma ReadFooterAfterFlush(h: Header, t: Table)
    requires Stored(t) && ValidFooter(DeriveFooter(t))
    ensures ReadFooter(FlushLines(h, t)) == Ok(DeriveFooter(t))
  {
    var foot := FormatFooter(DeriveFooter(t));
    assert LastLine(FlushLines(h, t)) == foot + "\n";
    assert Slice(foot + "\n", 2, 8) == Slice(foot, 2, 8);
    assert Slice(foot + "\n", 8, 20) == Slice(foot, 8, 20);
    FooterRoundTrip(DeriveFooter(t));
  }

  /** The lines between the header line and the footer line are the transaction lines. */
  lemma BodyOfFlush(h: Header, t: Table)
    requires Stored(t)
    ensures BodyLines(FlushLines(h, t)) == LinesOf(t.entries, t.order)
  {
  }

  /** Storing the transactions of a table keyed by counter, in insertion order, rebuilds it. */
  lemma RebuildTable(t: Table)
    requires KeyedByCounter(t)
    ensures InsertAll(EmptyTable, ValuesOf(t.entries, t.order)) == t
  {
    InsertValuesOf(t, |t.order|);
    assert t.order[..|t.order|] == t.order;
    PrefixAll(t);
  }

  lemma LoadBodyAfterFlush(h: Header, t: Table)
    requires Persistable(t)
    ensures ParseAll(BodyLines(FlushLines(h, t))) == Ok(ValuesOf(t.entries, t.order))
    ensures InsertAll(EmptyTable, ValuesOf(t.entries, t.order)) == t
  {
    BodyOfFlush(h, t);
    ParseLinesOf(t.entries, t.order);
    RebuildTable(t);
  }

  /** What a flush writes loads back as the same header and the same transactions in the
      same order, with the derived footer read from the last line. */
  lemma LoadAfterFlush(h: Header, t: Table)
    requires ValidHeader(h) && Persistable(t)
    ensures Load(FlushLines(h, t)) == Ok(Ledger(h, t, DeriveFooter(t)))
  {
    ReadHeaderAfterFlush(h, t);
    LoadBodyAfterFlush(h, t);
    ReadFooterAfterFlush(h, t);
  }

  // ------------------------------------------------ Flush, then read the text

  /** Python `readlines`: the text cut after every line feed, each line keeping its "\n";
      a last piece without one is a line of its own. */
  function SplitLines(text: string): (ls: seq<string>)
    decreases |text|
  {
    if text == [] then [] else
    var n := LineEnd(text);
    [text[..n]] + SplitLines(text[n..])
  }

  /** The length of the first line of `text`: up to and including its first line feed,
      or the whole text when it has none. */
  function LineEnd(text: string): (n: nat)
    requires text != []
    ensures 0 < n <= |text|
    ensures forall i :: 0 <= i < n - 1 ==> text[i] != '\n'
    ensures n < |text| ==> text[n - 1] == '\n'
    decreases |text|
  {
    if text[0] == '\n' || |text| == 1 then 1 else 1 + LineEnd(text[1..])
  }

  /** A line as `flush` writes it: a line feed at its end and nowhere else. */
  predicate IsLine(l: string) {
    |l| > 0 && l[|l| - 1] == '\n' && forall i :: 0 <= i < |l| - 1 ==> l[i] != '\n'
  }

  /** `readlines` gives a text that starts with a whole line that line first. */
  lemma SplitFirstLine(l: string, rest: string)
    requires IsLine(l)
    ensures SplitLines(l + rest) == [l] + SplitLines(rest)
  {
    var text := l + rest;
    assert text[|l| - 1] == '\n';
    assert forall i :: 0 <= i < |l| - 1 ==> text[i] != '\n';
    var n := LineEnd(text);
    assert n == |l|;
    assert text[..n] == l && text[n..] == rest;
  }

  lemma {:induction false} JoinFront(ls: seq<string>)
    requires ls != []
    ensures Join(ls) == ls[0] + Join(ls[1..])
  {
    if |ls| == 1 {
      assert ls[..0] == [] && ls[1..] == [];
    } else {
      var init, last := ls[..|ls| - 1], ls[|ls| - 1];
      JoinFront(init);
      assert init[1..] == ls[1..][..|ls[1..]| - 1];
      assert Join(ls[1..]) == Join(init[1..]) + last;
      assert init[0] == ls[0];
      calc {
        Join(ls);
        Join(init) + last;
        (ls[0] + Join(init[1..])) + last;
        { assert (ls[0] + Join(init[1..])) + last == ls[0] + (Join(init[1..]) + last); }
        ls[0] + Join(ls[1..]);
      }
    }
  }

  /** Text made of whole lines splits back into exactly those lines. */
  lemma {:induction false} SplitJoin(ls: seq<string>)
    requires forall i :: 0 <= i < |ls| ==> IsLine(ls[i])
    ensures SplitLines(Join(ls)) == ls
  {
    if ls != [] {
      JoinFront(ls);
      SplitFirstLine(ls[0], Join(ls[1..]));
      SplitJoin(ls[1..]);
    }
  }

  /** No header field and no stored currency holds a line feed. */
  ghost predicate SingleLineFields(h: Header, t: Table) {
    '\n' !in h.name && '\n' !in h.surname && '\n' !in h.patronymic && '\n' !in h.address
    && forall k :: k in t.entries ==> '\n' !in t.entries[k].currency
  }

  /** A text without line feeds is one line once its "\n" is added. */
  lemma LineOf(s: string)
    requires '\n' !in s
    ensures IsLine(s + "\n")
  {
    assert (s + "\n")[..|s|] == s;
  }

  lemma FillHasNoLineFeed(c: char, n: nat)
    requires c != '\n'
    ensures '\n' !in Fill(c, n)
  {
  }

  lemma FormatIntHasNoLineFeed(n: int, width: nat)
    ensures '\n' !in FormatInt(n, width)
  {
    var digits := NatToString(if n < 0 then -n else n);
    assert '\n' !in digits by {
      assert forall i :: 0 <= i < |digits| ==> IsDigit(digits[i]);
    }
    FillHasNoLineFeed('0', PadOf(n, width));
  }

  lemma JustifyHasNoLineFeed(s: string, width: nat)
    requires '\n' !in s
    ensures '\n' !in LeftJustify(s, width)
  {
    if |s| < width {
      FillHasNoLineFeed(' ', width - |s|);
    }
  }

  lemma HeaderLine(h: Header)
    requires '\n' !in h.name && '\n' !in h.surname && '\n' !in h.patronymic && '\n' !in h.address
    ensures IsLine(FormatHeader(h) + "\n")
  {
    JustifyHasNoLineFeed(h.name, NameWidth);
    JustifyHasNoLineFeed(h.surname, FieldWidth);
    JustifyHasNoLineFeed(h.patronymic, FieldWidth);
    JustifyHasNoLineFeed(h.address, FieldWidth);
    LineOf(FormatHeader(h));
  }

  lemma TransactionLineIsLine(x: Transaction)
    requires x.counter.Some? && '\n' !in x.currency
    ensures IsLine(TransactionLine(x))
  {
    FormatIntHasNoLineFeed(x.counter.value, CounterWidth);
    FormatIntHasNoLineFeed(x.amount, AmountWidth);
    JustifyHasNoLineFeed(x.currency, CurrencyWidth);
    LineOf(FormatTransaction(x).value);
  }

  lemma FooterLine(f: Footer)
    ensures IsLine(FormatFooter(f) + "\n")
  {
    FormatIntHasNoLineFeed(f.totalCounter, CounterWidth);
    FormatIntHasNoLineFeed(f.controlSum, AmountWidth);
    LineOf(FormatFooter(f));
  }

  lemma {:induction false} LinesOfAreLines(m: map<int, Transaction>, ks: seq<int>)
    requires Writable(m, ks)
    requires forall k :: k in m ==> '\n' !in m[k].currency
    ensures forall i :: 0 <= i < |ks| ==> IsLine(LinesOf(m, ks)[i])
  {
    if ks != [] {
      var init := ks[..|ks| - 1];
      LinesOfAreLines(m, init);
      TransactionLineIsLine(m[ks[|ks| - 1]]);
    }
  }

  /** With no line feed inside a field, `readlines` on what a flush writes gives back
      exactly the lines it wrote. */
  lemma SplitFlushText(h: Header, t: Table)
    requires Stored(t) && SingleLineFields(h, t)
    ensures SplitLines(FlushText(h, t)) == FlushLines(h, t)
  {
    HeaderLine(h);
    LinesOfAreLines(t.entries, t.order);
    FooterLine(DeriveFooter(t));
    SplitJoin(FlushLines(h, t));
  }

  /** What a flush writes, read back line by line, loads as the same header and the same
      transactions in the same order, with the derived footer. */
  lemma LoadAfterFlushText(h: Header, t: Table)
    requires ValidHeader(h) && Persistable(t) && SingleLineFields(h, t)
    ensures Load(SplitLines(FlushText(h, t))) == Ok(Ledger(h, t, DeriveFooter(t)))
  {
    SplitFlushText(h, t);
    LoadAfterFlush(h, t);
  }

  /** The header line of a flush, when the name holds a line feed, runs to that line feed. */
  lemma FlushTextStart(h: Header, t: Table)
    requires Stored(t) && h.name == "A\nB"
    ensures |FlushText(h, t)| >= 4 && FlushText(h, t)[..4] == "01A\n"
  {
    var head := FormatHeader(h);
    assert head[..5] == "01A\nB";
    JoinFront(FlushLines(h, t));
  }

  /** A header line cut at that line feed reads back as the name before it. */
  lemma ReadHeaderName(lines: seq<string>)
    requires |lines| > 0 && lines[0] == "01A\n"
    ensures ReadHeader(lines).name == "A"
  {
    assert Slice(lines[0], 0, 120) == "01A\n";
    assert Slice("01A\n", 2, 30) == "A\n";
    assert Strip("A\n") == "A";
  }

  /** `readlines` gives a text that starts with a whole line that line first. */
  lemma SplitStart(text: string, n: nat)
    requires n <= |text| && IsLine(text[..n])
    ensures |SplitLines(text)| > 0 && SplitLines(text)[0] == text[..n]
  {
    assert text == text[..n] + text[n..];
    SplitFirstLine(text[..n], text[n..]);
  }

  /** A successful load carries the header read from the first line. */
  lemma LoadHeader(lines: seq<string>)
    ensures Load(lines).Ok? ==> Load(lines).value.header == ReadHeader(lines)
  {
  }

  /** The constructor accepts a name with a line feed inside: stripping only removes
      whitespace at the ends. */
  lemma LineFeedNameAccepted()
    ensures MakeHeader("A\nB", "", "", "") == Ok(Header("A\nB", "", "", ""))
  {
    assert Strip("A\nB") == "A\nB";
    assert Strip("") == "";
  }

  /** A line feed inside a header field ends the header line early: the name read back
      stops at it, so what loads is not what was flushed. */
  lemma LineFeedInHeaderName(h: Header, t: Table)
    requires Stored(t) && h.name == "A\nB"
    ensures ReadHeader(SplitLines(FlushText(h, t))).name == "A"
    ensures Load(SplitLines(FlushText(h, t))) != Ok(Ledger(h, t, DeriveFooter(t)))
  {
    FlushTextStart(h, t);
    SplitStart(FlushText(h, t), 4);
    var read := SplitLines(FlushText(h, t));
    ReadHeaderName(read);
    LoadHeader(read);
  }
}
