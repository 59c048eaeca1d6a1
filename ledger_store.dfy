/**
 * The ledger store: one header, the transaction dictionary (its map and its
 * insertion order) and the counter of the last auto-assigned transaction.
 * The file is given as its lines; writing returns the text that would be written.
 */
module LedgerStore {
  import opened Wrappers
  import opened Records
  import opened LedgerTable

  class Storage {
    var header: Header
    /** The footer read at load time; nothing consults it afterwards. */
    var footer: Footer
    var transactions: map<int, Transaction>
    /** The keys of `transactions` in the order a Python dict iterates them. */
    var order: seq<int>
    var counter: int

    /** The store's invariant: a parsed header and a well-formed dictionary whose
        transactions all carry a counter. */
    ghost predicate Valid()
      reads this`header, this`transactions, this`order
    {
      ValidHeader(header) && Stored(Contents())
    }

    /** The dictionary as a value. */
    function Contents(): Table
      reads this`transactions, this`order
    {
      Table(transactions, order)
    }

    /** Everything a load produces, as a value. */
    ghost function State(): Ledger
      reads this
    {
      Ledger(header, Contents(), footer)
    }

    /** The first steps of `Storage.__init__`: the counter starts at 0 and the header is
        the one read from the file; no transaction is stored yet. */
    constructor (h: Header)
      requires ValidHeader(h)
      ensures Valid()
      ensures header == h && counter == 0 && Contents() == EmptyTable
    {
      header := h;
      footer := Footer(0, 0);
      transactions := map[];
      order := [];
      counter := 0;
    }

    /** `Storage(file)`: reads the header, the transactions and the footer, and raises
        whatever a transaction line or the footer line raises. */
    static method Open(lines: seq<string>) returns (r: Result<Storage, Error>)
      ensures r.Ok? <==> Load(lines).Ok?
      ensures r.Err? ==> Load(lines) == Err(r.error)
      ensures r.Ok? ==> fresh(r.value) && r.value.Valid() && r.value.counter == 0
                        && r.value.State() == Load(lines).value
    {
      LoadParts(lines);
      var h := ReadHeader(lines);
      var s := new Storage(h);
      var read := s.ReadTransactions(lines);
      if read.Fail? {
        return Err(read.error);
      }
      var foot := s.LoadFooter(lines);
      if foot.Fail? {
        return Err(foot.error);
      }
      return Ok(s);
    }

    /** `read_transactions`: every line between the first and the last is parsed and
        stored under its own counter; the first line that does not parse raises. */
    method ReadTransactions(lines: seq<string>) returns (r: Outcome<Error>)
      requires Valid()
      modifies this`transactions, this`order
      ensures Valid() && header == old(header) && counter == old(counter) && footer == old(footer)
      ensures r.Pass? <==> ParseAll(BodyLines(lines)).Ok?
      ensures r.Fail? ==> ParseAll(BodyLines(lines)) == Err(r.error)
      ensures r.Fail? ==>
                exists n :: 0 <= n < |BodyLines(lines)| && ParseAll(BodyLines(lines)[..n]).Ok?
                            && TransactionFromText(BodyLines(lines)[n]) == Err(r.error)
                            && Contents() == InsertAll(old(Contents()), ParseAll(BodyLines(lines)[..n]).value)
      ensures r.Pass? ==> Contents() == InsertAll(old(Contents()), ParseAll(BodyLines(lines)).value)
    {
      var body := BodyLines(lines);
      var i := 0;
      ghost var done: seq<Transaction> := [];
      assert body[..0] == [];
      while i < |body|
        invariant 0 <= i <= |body|
        invariant Valid()
        invariant ParseAll(body[..i]) == Ok(done)
        invariant Contents() == InsertAll(old(Contents()), done)
      {
        var parsed := TransactionFromText(body[i]);
        ParseAllStep(body, i);
        if parsed.Err? {
          assert ParseAll(body[..i]).Ok? && TransactionFromText(body[i]) == Err(parsed.error);
          return Fail(parsed.error);
        }
        var x := parsed.value;
        InsertAllStep(old(Contents()), done, x);
        Assign(x.counter.value, x);
        done := done + [x];
        i := i + 1;
      }
      assert body[..i] == body;
      return Pass;
    }

    /** `self.footer = self.read_footer()`: the last line parsed as a footer and kept;
        when it does not parse, it raises and the footer is left as it was. */
    method LoadFooter(lines: seq<string>) returns (r: Outcome<Error>)
      modifies this`footer
      ensures header == old(header) && Contents() == old(Contents()) && counter == old(counter)
      ensures r.Pass? <==> ReadFooter(lines).Ok?
      ensures r.Fail? ==> ReadFooter(lines) == Err(r.error) && footer == old(footer)
      ensures r.Pass? ==> footer == ReadFooter(lines).value
    {
      var f := ReadFooter(lines);
      if f.Err? {
        return Fail(f.error);
      }
      footer := f.value;
      return Pass;
    }

    /** `self.transactions[k] = x`: a new key goes to the end of the insertion order,
        a key already present keeps its place and gets the new transaction. */
    method Assign(k: int, x: Transaction)
      requires Valid() && x.counter.Some?
      modifies this`transactions, this`order
      ensures Valid()
      ensures Contents() == Put(old(Contents()), k, x)
    {
      if k !in transactions {
        order := order + [k];
      }
      transactions := transactions[k := x];
    }

    /** `create_increment_transaction`: the counter becomes the number of stored
        transactions plus one; above 20000 it raises, with the counter already updated. */
    method CreateIncrementTransaction() returns (r: Result<int, Error>)
      modifies this`counter
      ensures counter == |transactions| + 1
      ensures counter <= MaxCounter ==> r == Ok(counter)
      ensures counter > MaxCounter ==> r == Err(CapacityReached)
    {
      counter := |transactions| + 1;
      if counter > MaxCounter {
        return Err(CapacityReached);
      }
      return Ok(counter);
    }

    /** `save_transaction`: a transaction without a counter first gets one assigned (the
        returned transaction is the caller's, with that counter written in). Whatever its
        own counter, it is then stored under the store's `counter`, replacing any entry
        there. When the assignment raises, nothing is stored. */
    method SaveTransaction(x: Transaction) returns (r: Result<Transaction, Error>)
      requires Valid()
      modifies this`transactions, this`order, this`counter
      ensures Valid()
      ensures x.counter.Some? ==> counter == old(counter) && r == Ok(x)
      ensures x.counter.None? ==> counter == old(|transactions|) + 1
      ensures r.Err? <==> x.counter.None? && counter > MaxCounter
      ensures r.Err? ==> r.error == CapacityReached && Contents() == old(Contents())
      ensures r.Ok? && x.counter.None? ==> r.value == x.(counter := Some(counter))
      ensures r.Ok? ==> Contents() == Put(old(Contents()), counter, r.value)
    {
      var saved := x;
      if x.counter.None? {
        var next := CreateIncrementTransaction();
        if next.Err? {
          return Err(next.error);
        }
        saved := x.(counter := Some(next.value));
      }
      Assign(counter, saved);
      return Ok(saved);
    }

    /** `save_footer`: counts the stored transactions and adds up their amounts,
        in insertion order, without changing the store. */
    method SaveFooter() returns (f: Footer)
      requires Valid()
      ensures f == DeriveFooter(Contents())
    {
      var sum := 0;
      var i := 0;
      while i < |order|
        invariant 0 <= i <= |order|
        invariant sum == SumAmounts(transactions, order[..i])
      {
        assert order[..i + 1][..i] == order[..i];
        sum := sum + transactions[order[i]].amount;
        i := i + 1;
      }
      assert order[..i] == order;
      f := Footer(|transactions|, sum);
    }

    /** `flush`: the header line, each stored transaction's line in insertion order,
        then the line of a freshly derived footer. */
    method Flush() returns (out: string)
      requires Valid()
      ensures out == FlushText(header, Contents())
    {
      var head := FormatHeader(header) + "\n";
      var m, ks := transactions, order;
      out := head;
      var i := 0;
      assert ks[..0] == [];
      assert Join([head]) == Join([]) + head;
      while i < |ks|
        invariant 0 <= i <= |ks|
        invariant out == Join([head] + LinesOf(m, ks[..i]))
      {
        var text := FormatTransaction(m[ks[i]]);
        FlushStep(head, m, ks, i);
        out := out + (text.value + "\n");
        i := i + 1;
      }
      var f := SaveFooter();
      assert ks[..i] == ks;
      FlushTextParts(header, Contents());
      out := out + (FormatFooter(f) + "\n");
    }
  }
}
