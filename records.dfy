/**
 * The three fixed-width record types of the ledger file: Header (tag "01"),
 * Transaction (tag "02") and Footer (tag "03"). Each has a validating
 * constructor, a parser that slices fixed offsets and a serialiser.
 * Equality of records is structural, which datatype equality gives directly.
 */
module Records {
  import opened Wrappers
  import opened FieldCodec

  /** Why a record operation raises. */
  datatype Error =
    | Exceeds(limit: nat)   // a field is longer (or, for a counter, larger) than `limit`
    | NotAnInteger          // `int()` was given text that is not an integer
    | MissingCounter        // a transaction with no counter cannot be formatted
    | CapacityReached       // the store would auto-assign a counter above 20000

  const HeaderTag := "01"
  const TransactionTag := "02"
  const FooterTag := "03"

  const NameWidth := 28
  const FieldWidth := 30
  const CounterWidth := 6
  const AmountWidth := 12
  const CurrencyWidth := 3
  const MaxCounter := 20000

  // ---------------------------------------------------------------- Header

  datatype Header = Header(name: string, surname: string, patronymic: string, address: string)

  /** What the constructor guarantees: every field stripped and within its width. */
  predicate ValidHeader(h: Header) {
    IsStripped(h.name) && |h.name| <= NameWidth
    && IsStripped(h.surname) && |h.surname| <= FieldWidth
    && IsStripped(h.patronymic) && |h.patronymic| <= FieldWidth
    && IsStripped(h.address) && |h.address| <= FieldWidth
  }

  /** `Header(name, surname, patronymic, address)`: strips every field, then rejects
      the first one still too long (name over 28, the others over 30). */
  function MakeHeader(name: string, surname: string, patronymic: string, address: string)
    : (r: Result<Header, Error>)
    ensures r.Ok? <==> |Strip(name)| <= NameWidth && |Strip(surname)| <= FieldWidth
                       && |Strip(patronymic)| <= FieldWidth && |Strip(address)| <= FieldWidth
    ensures r.Ok? ==> ValidHeader(r.value)
                      && r.value == Header(Strip(name), Strip(surname), Strip(patronymic), Strip(address))
    ensures r.Err? ==> r.error == Exceeds(if |Strip(name)| > NameWidth then NameWidth else FieldWidth)
  {
    var n := Strip(name);
    if |n| > NameWidth then Err(Exceeds(NameWidth)) else
    var s := Strip(surname);
    if |s| > FieldWidth then Err(Exceeds(FieldWidth)) else
    var p := Strip(patronymic);
    if |p| > FieldWidth then Err(Exceeds(FieldWidth)) else
    var a := Strip(address);
    if |a| > FieldWidth then Err(Exceeds(FieldWidth)) else
    Ok(Header(n, s, p, a))
  }

  /** `Header.format_to_text`: the tag, then the four fields space-padded to 28/30/30/30. */
  function FormatHeader(h: Header): (s: string)
    ensures |s| >= 2 && s[..2] == HeaderTag
    ensures ValidHeader(h) ==> |s| == 120
  {
    HeaderTag + LeftJustify(h.name, NameWidth) + LeftJustify(h.surname, FieldWidth)
      + LeftJustify(h.patronymic, FieldWidth) + LeftJustify(h.address, FieldWidth)
  }

  /** `Header.interpretation_from_file_text`: slices [2:30], [30:60], [60:90], [90:120]
      and hands them to the constructor. No slice is long enough to fail its width
      check, so a header line of any content parses to a valid header. */
  function HeaderFromText(text: string): (r: Result<Header, Error>)
    ensures r.Ok? && ValidHeader(r.value)
  {
    MakeHeader(Slice(text, 2, 30), Slice(text, 30, 60), Slice(text, 60, 90), Slice(text, 90, 120))
  }

  /** A valid header survives formatting and parsing: re-stripping removes exactly the padding. */
  lemma HeaderRoundTrip(h: Header)
    requires ValidHeader(h)
    ensures HeaderFromText(FormatHeader(h)) == Ok(h)
  {
    var n := LeftJustify(h.name, NameWidth);
    var s := LeftJustify(h.surname, FieldWidth);
    var p := LeftJustify(h.patronymic, FieldWidth);
    var a := LeftJustify(h.address, FieldWidth);
    var text := FormatHeader(h);
    assert text == HeaderTag + n + s + p + a;
    assert Slice(text, 2, 30) == n;
    assert Slice(text, 30, 60) == s;
    assert Slice(text, 60, 90) == p;
    assert Slice(text, 90, 120) == a;
    StripJustified(h.name, NameWidth);
    StripJustified(h.surname, FieldWidth);
    StripJustified(h.patronymic, FieldWidth);
    StripJustified(h.address, FieldWidth);
  }

  // ----------------------------------------------------------- Transaction

  /** A transaction; its counter is `None` until the store assigns one. */
  datatype Transaction = Transaction(counter: Option<int>, amount: int, currency: string)

  /** What the constructor guarantees. Its counter test `counter and counter > 20000`
      lets `None` and 0 through, so it amounts to `counter <= 20000`. */
  predicate ValidTransaction(t: Transaction) {
    (t.counter.None? || t.counter.value <= MaxCounter)
    && |IntToString(t.amount)| <= AmountWidth
    && |t.currency| <= CurrencyWidth
  }

  /** `Transaction(counter, amount, currency)`: checks the counter, then
      `len(str(amount)) <= 12`, then `len(currency) <= 3`; nothing is stripped. */
  function MakeTransaction(counter: Option<int>, amount: int, currency: string)
    : (r: Result<Transaction, Error>)
    ensures r.Ok? <==> ValidTransaction(Transaction(counter, amount, currency))
    ensures r.Ok? ==> r.value == Transaction(counter, amount, currency)
    ensures r.Err? ==> r.error == (if counter.Some? && counter.value > MaxCounter then Exceeds(MaxCounter)
                                   else if |IntToString(amount)| > AmountWidth then Exceeds(AmountWidth)
                                   else Exceeds(CurrencyWidth))
  {
    if counter.Some? && counter.value != 0 && counter.value > MaxCounter then Err(Exceeds(MaxCounter))
    else if |IntToString(amount)| > AmountWidth then Err(Exceeds(AmountWidth))
    else if |currency| > CurrencyWidth then Err(Exceeds(CurrencyWidth))
    else Ok(Transaction(counter, amount, currency))
  }

  /** The counter range that fits the 6-character counter field. */
  predicate CounterFits(t: Transaction) {
    t.counter.Some? && -99999 <= t.counter.value <= MaxCounter
  }

  /** `Transaction.format_to_text`: the tag, the counter zero-padded to 6, the amount
      zero-padded to 12 and the currency space-padded to 3; 23 characters for a valid
      transaction whose counter fits, with no padding to 120. Formatting `None` with
      `:06` raises. */
  function FormatTransaction(t: Transaction): (r: Result<string, Error>)
    ensures r.Ok? <==> t.counter.Some?
    ensures r.Ok? ==> |r.value| >= 2 && r.value[..2] == TransactionTag
    ensures ValidTransaction(t) && CounterFits(t) ==> |r.value| == 23
  {
    match t.counter
    case None => Err(MissingCounter)
    case Some(c) =>
      WidthOfCounter(c);
      Ok(TransactionTag + FormatInt(c, CounterWidth) + FormatInt(t.amount, AmountWidth)
         + LeftJustify(t.currency, CurrencyWidth))
  }

  lemma WidthOfCounter(c: int)
    ensures -99999 <= c <= MaxCounter ==> |IntToString(c)| <= CounterWidth
  {
    IntToStringLength(c, CounterWidth);
    assert Pow10(5) == 100000;
  }

  /** `Transaction.from_text`: `int` of [2:8] and [8:20], the raw slice [20:23] as the
      currency, then the constructor. A parsed transaction always has a counter. */
  function TransactionFromText(text: string): (r: Result<Transaction, Error>)
    ensures r.Ok? ==> ValidTransaction(r.value) && r.value.counter.Some?
  {
    match ParseInt(Slice(text, 2, 8))
    case None => Err(NotAnInteger)
    case Some(c) =>
      match ParseInt(Slice(text, 8, 20))
      case None => Err(NotAnInteger)
      case Some(a) => MakeTransaction(Some(c), a, Slice(text, 20, 23))
  }

  /** A valid transaction whose counter fits comes back from its text with the currency
      space-padded to 3 (`from_text` does not strip), and so unchanged when its currency
      has exactly 3 characters. */
  lemma TransactionRoundTrip(t: Transaction)
    requires ValidTransaction(t) && CounterFits(t)
    ensures TransactionFromText(FormatTransaction(t).value)
            == Ok(t.(currency := LeftJustify(t.currency, CurrencyWidth)))
    ensures |t.currency| == CurrencyWidth ==> TransactionFromText(FormatTransaction(t).value) == Ok(t)
  {
    var c := t.counter.value;
    WidthOfCounter(c);
    var cs := FormatInt(c, CounterWidth);
    var am := FormatInt(t.amount, AmountWidth);
    var cur := LeftJustify(t.currency, CurrencyWidth);
    var text := FormatTransaction(t).value;
    assert text == TransactionTag + cs + am + cur;
    assert Slice(text, 2, 8) == cs;
    assert Slice(text, 8, 20) == am;
    assert Slice(text, 20, 23) == cur;
    ParseFormatInt(c, CounterWidth);
    ParseFormatInt(t.amount, AmountWidth);
    assert |t.currency| == CurrencyWidth ==> cur == t.currency;
  }

  // ---------------------------------------------------------------- Footer

  datatype Footer = Footer(totalCounter: int, controlSum: int)

  /** What the constructor guarantees: `len(str(total_counter)) <= 6` and
      `len(str(control_sum)) <= 12`. */
  predicate ValidFooter(f: Footer) {
    |IntToString(f.totalCounter)| <= CounterWidth && |IntToString(f.controlSum)| <= AmountWidth
  }

  /** `Footer(total_counter, control_sum)`: checks the counter width, then the sum width. */
  function MakeFooter(totalCounter: int, controlSum: int): (r: Result<Footer, Error>)
    ensures r.Ok? <==> ValidFooter(Footer(totalCounter, controlSum))
    ensures r.Ok? ==> r.value == Footer(totalCounter, controlSum)
    ensures r.Err? ==> r.error == (if |IntToString(totalCounter)| > CounterWidth then Exceeds(CounterWidth)
                                   else Exceeds(AmountWidth))
  {
    if |IntToString(totalCounter)| > CounterWidth then Err(Exceeds(CounterWidth))
    else if |IntToString(controlSum)| > AmountWidth then Err(Exceeds(AmountWidth))
    else Ok(Footer(totalCounter, controlSum))
  }

  /** `Footer.format_to_text`: the tag, the count zero-padded to 6 and the sum zero-padded
      to 12; 20 characters for a valid footer, with no padding to 120. */
  function FormatFooter(f: Footer): (s: string)
    ensures |s| >= 2 && s[..2] == FooterTag
    ensures ValidFooter(f) ==> |s| == 20
  {
    FooterTag + FormatInt(f.totalCounter, CounterWidth) + FormatInt(f.controlSum, AmountWidth)
  }

  /** `Footer.from_text`: `int` of [2:8] and [8:20], then the constructor. */
  function FooterFromText(text: string): (r: Result<Footer, Error>)
    ensures r.Ok? ==> ValidFooter(r.value)
  {
    match ParseInt(Slice(text, 2, 8))
    case None => Err(NotAnInteger)
    case Some(n) =>
      match ParseInt(Slice(text, 8, 20))
      case None => Err(NotAnInteger)
      case Some(s) => MakeFooter(n, s)
  }

  /** A valid footer survives formatting and parsing. */
  lemma FooterRoundTrip(f: Footer)
    requires ValidFooter(f)
    ensures FooterFromText(FormatFooter(f)) == Ok(f)
  {
    var ns := FormatInt(f.totalCounter, CounterWidth);
    var ss := FormatInt(f.controlSum, AmountWidth);
    var text := FormatFooter(f);
    assert text == FooterTag + ns + ss;
    assert Slice(text, 2, 8) == ns;
    assert Slice(text, 8, 20) == ss;
    ParseFormatInt(f.totalCounter, CounterWidth);
    ParseFormatInt(f.controlSum, AmountWidth);
  }

  /** The footer's width checks as numeric ranges. */
  lemma ValidFooterRange(f: Footer)
    ensures ValidFooter(f) <==> -99999 <= f.totalCounter <= 999999
                                && -99999999999 <= f.controlSum <= 999999999999
  {
    IntToStringLength(f.totalCounter, CounterWidth);
    IntToStringLength(f.controlSum, AmountWidth);
    assert Pow10(5) == 100000 && Pow10(6) == 1000000;
    assert Pow10(11) == 100000000000 && Pow10(12) == 1000000000000;
  }
}
