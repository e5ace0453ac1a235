/** The value-conservation checker (axioms/conservation_of_value.py) and its agreement with double entry. */
module Conservation {
  import opened Basics
  import opened DoubleEntry

  /** A journal line as the dictionary this checker takes, with its defaults filled in. */
  datatype Entry = Entry(debit: real, credit: real, currency: string, account: string)

  datatype ValueNode = ValueNode(amount: real, currency: string, account: string)

  datatype FlowType = SourceToDestination | Destruction | Creation | Consumption | Transfer | Conversion

  datatype ValueFlow = ValueFlow(sources: seq<ValueNode>, destinations: seq<ValueNode>, fee: real,
                                 feeCurrency: string, flowType: FlowType)

  datatype FlowError = BadNode | NegativeFee | MultipleCurrencies

  datatype Verdict = Verdict(conserved: bool, sourceTotal: real, destinationTotal: real, difference: real,
                             tolerance: real)

  // ----- Flows

  /** `ValueNode._validate` */
  predicate NodeOk(n: ValueNode) {
    n.amount >= 0.0 && |n.currency| == 3 && n.account != ""
  }

  function Sum(nodes: seq<ValueNode>): real {
    if nodes == [] then 0.0 else Sum(nodes[..|nodes| - 1]) + nodes[|nodes| - 1].amount
  }

  /** The set `ValueFlow._validate` counts. */
  function Currencies(f: ValueFlow): set<string> {
    (set n | n in f.sources :: n.currency) + (set n | n in f.destinations :: n.currency) +
    if f.feeCurrency != "" then {f.feeCurrency} else {}
  }

  function FlowProblem(f: ValueFlow): Option<FlowError> {
    if f.fee < 0.0 then Some(NegativeFee)
    else if |Currencies(f)| > 1 then Some(MultipleCurrencies)
    else None
  }

  function NetChange(f: ValueFlow): real {
    Sum(f.sources) - Sum(f.destinations) - f.fee
  }

  const CONSOLIDATION_TOLERANCE := 0.01

  /** `validate_flow` */
  function ValidateFlow(f: ValueFlow, tolerance: Option<real>): Verdict {
    var t := Tolerance(tolerance, if f.flowType == Transfer then CONSOLIDATION_TOLERANCE else DEFAULT_TOLERANCE);
    Verdict(Abs(NetChange(f)) <= t, Sum(f.sources), Sum(f.destinations), NetChange(f), t)
  }

  // ----- Transactions

  function Sources(entries: seq<Entry>): seq<ValueNode> {
    if entries == [] then []
    else
      var e := entries[|entries| - 1];
      Sources(entries[..|entries| - 1]) + if e.debit > 0.0 then [ValueNode(e.debit, e.currency, e.account)] else []
  }

  function Destinations(entries: seq<Entry>): seq<ValueNode> {
    if entries == [] then []
    else
      var e := entries[|entries| - 1];
      Destinations(entries[..|entries| - 1]) +
      if e.credit > 0.0 then [ValueNode(e.credit, e.currency, e.account)] else []
  }

  predicate NodesOk(nodes: seq<ValueNode>) {
    forall n :: n in nodes ==> NodeOk(n)
  }

  function FlowOf(entries: seq<Entry>, fee: real, feeCurrency: string): ValueFlow {
    ValueFlow(Sources(entries), Destinations(entries), fee, feeCurrency, SourceToDestination)
  }

  /** What `validate_transaction` returns or raises. */
  function Validated(entries: seq<Entry>, fee: real, feeCurrency: string, tolerance: Option<real>)
    : Result<Verdict, FlowError>
  {
    var f := FlowOf(entries, fee, feeCurrency);
    if !NodesOk(f.sources) || !NodesOk(f.destinations) then Err(BadNode)
    else match FlowProblem(f)
      case Some(e) => Err(e)
      case None => Ok(ValidateFlow(f, tolerance))
  }

  /** The loop over the lines; the first bad node ends it. */
  method CollectNodes(entries: seq<Entry>) returns (r: Result<(seq<ValueNode>, seq<ValueNode>), FlowError>)
    ensures r == if NodesOk(Sources(entries)) && NodesOk(Destinations(entries))
                 then Ok((Sources(entries), Destinations(entries))) else Err(BadNode)
  {
    var sources: seq<ValueNode> := [];
    var destinations: seq<ValueNode> := [];
    for i := 0 to |entries|
      invariant sources == Sources(entries[..i]) && destinations == Destinations(entries[..i])
      invariant NodesOk(sources) && NodesOk(destinations)
    {
      var e := entries[i];
      assert entries[..i + 1][..i] == entries[..i];
      NodesGrow(entries, i + 1);
      if e.debit > 0.0 {
        var node := ValueNode(e.debit, e.currency, e.account);
        if !NodeOk(node) {
          assert Sources(entries[..i + 1])[|sources|] == node;
          return Err(BadNode);
        }
        sources := sources + [node];
      }
      if e.credit > 0.0 {
        var node := ValueNode(e.credit, e.currency, e.account);
        if !NodeOk(node) {
          assert Destinations(entries[..i + 1])[|destinations|] == node;
          return Err(BadNode);
        }
        destinations := destinations + [node];
      }
    }
    assert entries[..|entries|] == entries;
    r := Ok((sources, destinations));
  }

  /** `ConservationOfValueValidator.validate_transaction` */
  method ValidateTransaction(entries: seq<Entry>, fee: real, feeCurrency: string, tolerance: Option<real>)
    returns (r: Result<Verdict, FlowError>)
    ensures r == Validated(entries, fee, feeCurrency, tolerance)
  {
    var nodes := CollectNodes(entries);
    if nodes.Err? {
      return Err(nodes.error);
    }
    var f := ValueFlow(nodes.value.0, nodes.value.1, fee, feeCurrency, SourceToDestination);
    var problem := FlowProblem(f);
    if problem.Some? {
      return Err(problem.value);
    }
    r := Ok(ValidateFlow(f, tolerance));
  }

  lemma {:induction false} NodesGrow(entries: seq<Entry>, i: nat)
    requires i <= |entries|
    ensures Sources(entries[..i]) <= Sources(entries)
    ensures Destinations(entries[..i]) <= Destinations(entries)
    decreases |entries|
  {
    if i < |entries| {
      assert entries[..|entries| - 1][..i] == entries[..i];
      NodesGrow(entries[..|entries| - 1], i);
    } else {
      assert entries[..i] == entries;
    }
  }

  /** The sources are the debit lines and the destinations the credit lines, with amount, currency and account. */
  lemma {:induction false} NodesOfEntries(entries: seq<Entry>, n: ValueNode)
    ensures n in Sources(entries) <==>
            exists e :: e in entries && e.debit > 0.0 &&
                        n.amount == e.debit && n.currency == e.currency && n.account == e.account
    ensures n in Destinations(entries) <==>
            exists e :: e in entries && e.credit > 0.0 &&
                        n.amount == e.credit && n.currency == e.currency && n.account == e.account
    decreases |entries|
  {
    if entries != [] {
      var before, last := entries[..|entries| - 1], entries[|entries| - 1];
      assert entries == before + [last];
      NodesOfEntries(before, n);
    }
  }

  /** What is rejected, in this order: a node without account or currency code, a negative fee, two currencies. */
  lemma RejectedIff(entries: seq<Entry>, fee: real, feeCurrency: string, tolerance: Option<real>)
    ensures var r := Validated(entries, fee, feeCurrency, tolerance);
            var bad := exists n :: (n in Sources(entries) || n in Destinations(entries)) &&
                                   (n.amount < 0.0 || |n.currency| != 3 || n.account == "");
            && (r == Err(BadNode) <==> bad)
            && (r == Err(NegativeFee) <==> !bad && fee < 0.0)
            && (r == Err(MultipleCurrencies) <==>
                  !bad && fee >= 0.0 && |Currencies(FlowOf(entries, fee, feeCurrency))| > 1)
  {
    assert NodesOk(Sources(entries)) && NodesOk(Destinations(entries)) <==>
           forall n :: n in Sources(entries) || n in Destinations(entries) ==> NodeOk(n);
  }

  /** What a flow's verdict says; a transfer has a tolerance of its own when none is given. */
  lemma FlowVerdict(f: ValueFlow, tolerance: Option<real>)
    ensures var v := ValidateFlow(f, tolerance);
            && v.sourceTotal == Sum(f.sources) && v.destinationTotal == Sum(f.destinations)
            && v.difference == v.sourceTotal - v.destinationTotal - f.fee
            && v.tolerance == (if tolerance != None && tolerance != Some(0.0) then tolerance.value
                               else if f.flowType == Transfer then 0.01 else 0.0001)
            && (v.conserved <==> -v.tolerance <= v.difference <= v.tolerance)
  {
  }

  // ----- The two checkers on the same journal

  function EntryOf(l: Line): Entry {
    if l.side == Debit then Entry(l.amount, 0.0, l.currency, l.account)
    else Entry(0.0, l.amount, l.currency, l.account)
  }

  function Entries(lines: seq<Line>): (r: seq<Entry>)
    ensures |r| == |lines|
  {
    seq(|lines|, i requires 0 <= i < |lines| => EntryOf(lines[i]))
  }

  function NodeOf(l: Line): ValueNode {
    ValueNode(l.amount, l.currency, l.account)
  }

  /** The last line adds one node, on its own side. */
  lemma LastLineAddsItsNode(before: seq<Line>, l: Line)
    requires LineOk(l)
    ensures Sources(Entries(before + [l]))
         == if l.side == Debit then Sources(Entries(before)) + [NodeOf(l)] else Sources(Entries(before))
    ensures Destinations(Entries(before + [l]))
         == if l.side == Credit then Destinations(Entries(before)) + [NodeOf(l)] else Destinations(Entries(before))
  {
    assert Entries(before + [l])[..|before|] == Entries(before);
  }

  lemma SumSnoc(nodes: seq<ValueNode>, n: ValueNode)
    ensures Sum(nodes + [n]) == Sum(nodes) + n.amount
  {
    assert (nodes + [n])[..|nodes|] == nodes;
  }

  /** Both checkers add up the same two totals. */
  lemma {:induction false} TotalsAgree(lines: seq<Line>)
    requires LinesOk(lines)
    ensures Sum(Sources(Entries(lines))) == Total(lines, Debit)
    ensures Sum(Destinations(Entries(lines))) == Total(lines, Credit)
    decreases |lines|
  {
    if lines != [] {
      var before, l := lines[..|lines| - 1], lines[|lines| - 1];
      assert lines == before + [l];
      TotalsAgree(before);
      OneMoreLine(before, l);
    }
  }

  lemma OneMoreLine(before: seq<Line>, l: Line)
    requires LineOk(l)
    requires Sum(Sources(Entries(before))) == Total(before, Debit)
    requires Sum(Destinations(Entries(before))) == Total(before, Credit)
    ensures Sum(Sources(Entries(before + [l]))) == Total(before + [l], Debit)
    ensures Sum(Destinations(Entries(before + [l]))) == Total(before + [l], Credit)
  {
    LastLineAddsItsNode(before, l);
    TotalSnoc(before, l, Debit);
    TotalSnoc(before, l, Credit);
    SumSnoc(Sources(Entries(before)), NodeOf(l));
    SumSnoc(Destinations(Entries(before)), NodeOf(l));
  }

  /** The nodes of a journal are its lines, debits on one side and credits on the other. */
  lemma {:induction false} NodesOfLines(lines: seq<Line>, n: ValueNode)
    requires LinesOk(lines)
    ensures n in Sources(Entries(lines)) <==>
            exists l :: l in lines && l.side == Debit && n == NodeOf(l)
    ensures n in Destinations(Entries(lines)) <==>
            exists l :: l in lines && l.side == Credit && n == NodeOf(l)
    decreases |lines|
  {
    if lines != [] {
      var before, l := lines[..|lines| - 1], lines[|lines| - 1];
      assert lines == before + [l];
      NodesOfLines(before, n);
      LastLineAddsItsNode(before, l);
    }
  }

  /** Every line is in one currency, which is the fee's if the fee names one. */
  ghost predicate OneCurrency(lines: seq<Line>, feeCurrency: string) {
    && (forall l, m :: l in lines && m in lines ==> l.currency == m.currency)
    && (feeCurrency != "" ==> forall l :: l in lines ==> l.currency == feeCurrency)
  }

  ghost function CurrenciesOf(lines: seq<Line>): set<string> {
    set l | l in lines :: l.currency
  }

  lemma CurrenciesOfLines(lines: seq<Line>, fee: real, feeCurrency: string)
    requires LinesOk(lines)
    ensures Currencies(FlowOf(Entries(lines), fee, feeCurrency))
         == CurrenciesOf(lines) + if feeCurrency != "" then {feeCurrency} else {}
  {
    var s, d := Sources(Entries(lines)), Destinations(Entries(lines));
    forall n | n in s || n in d
      ensures n.currency in CurrenciesOf(lines)
    {
      NodesOfLines(lines, n);
    }
    forall l | l in lines
      ensures l.currency in (set n | n in s :: n.currency) + (set n | n in d :: n.currency)
    {
      var n := NodeOf(l);
      NodesOfLines(lines, n);
      assert n.currency == l.currency && (n in s || n in d);
    }
  }

  lemma AtMostOne<T>(s: set<T>)
    ensures |s| <= 1 <==> forall x, y :: x in s && y in s ==> x == y
  {
    if |s| <= 1 {
      forall x, y | x in s && y in s
        ensures x == y
      {
        if x != y {
          assert {x, y} <= s;
          SubsetSize({x, y}, s);
        }
      }
    } else {
      var x :| x in s;
      assert |s - {x}| > 0;
      var y :| y in s - {x};
      assert x in s && y in s && x != y;
    }
  }

  lemma {:induction false} SubsetSize<T>(a: set<T>, b: set<T>)
    requires a <= b
    ensures |a| <= |b|
    decreases |a|
  {
    if a != {} {
      var x :| x in a;
      SubsetSize(a - {x}, b - {x});
    }
  }

  /** At most one currency is counted exactly when lines and fee are in one. */
  lemma OneCurrencyIff(lines: seq<Line>, fee: real, feeCurrency: string)
    requires LinesOk(lines)
    ensures |Currencies(FlowOf(Entries(lines), fee, feeCurrency))| <= 1 <==> OneCurrency(lines, feeCurrency)
  {
    var c := Currencies(FlowOf(Entries(lines), fee, feeCurrency));
    CurrenciesOfLines(lines, fee, feeCurrency);
    AtMostOne(c);
    forall l | l in lines
      ensures l.currency in c
    {
    }
    if OneCurrency(lines, feeCurrency) {
      forall x, y | x in c && y in c
        ensures x == y
      {
      }
    }
  }

  lemma JournalNodesOk(lines: seq<Line>)
    requires LinesOk(lines)
    ensures NodesOk(Sources(Entries(lines))) && NodesOk(Destinations(Entries(lines)))
  {
    forall n | n in Sources(Entries(lines)) || n in Destinations(Entries(lines))
      ensures NodeOk(n)
    {
      NodesOfLines(lines, n);
    }
  }

  /** On a journal's lines the checker answers exactly when they are in one currency. */
  lemma AnswersIff(lines: seq<Line>, fee: real, feeCurrency: string, tolerance: Option<real>)
    requires LinesOk(lines) && fee >= 0.0
    ensures Validated(Entries(lines), fee, feeCurrency, tolerance)
         == if OneCurrency(lines, feeCurrency)
            then Ok(ValidateFlow(FlowOf(Entries(lines), fee, feeCurrency), tolerance))
            else Err(MultipleCurrencies)
  {
    JournalNodesOk(lines);
    OneCurrencyIff(lines, fee, feeCurrency);
    var f := FlowOf(Entries(lines), fee, feeCurrency);
    assert FlowProblem(f) == if |Currencies(f)| > 1 then Some(MultipleCurrencies) else None;
  }

  lemma VerdictOnJournal(lines: seq<Line>, fee: real, feeCurrency: string, tolerance: Option<real>)
    requires LinesOk(lines)
    ensures var v := ValidateFlow(FlowOf(Entries(lines), fee, feeCurrency), tolerance);
            && v.difference == Difference(lines) - fee
            && (v.conserved <==> Abs(Difference(lines) - fee) <= Tolerance(tolerance, DEFAULT_TOLERANCE))
  {
    TotalsAgree(lines);
    var f := FlowOf(Entries(lines), fee, feeCurrency);
    assert NetChange(f) == Difference(lines) - fee;
  }

  /**
   * The two checkers agree for every tolerance, none and zero included: the conservation checker
   * gives an answer exactly when the journal is in one currency, and then it is the balance test's.
   */
  lemma CheckersAgree(j: Journal, feeCurrency: string, tolerance: Option<real>)
    requires LinesOk(j.lines)
    ensures var r := Validated(Entries(j.lines), 0.0, feeCurrency, tolerance);
            && (r.Ok? <==> OneCurrency(j.lines, feeCurrency))
            && (r.Ok? ==>
                  && r.value.conserved == VerificationOf(j, Tolerance(tolerance, DEFAULT_TOLERANCE)).balanced
                  && r.value.difference == Difference(j.lines))
            && (r.Err? ==> r.error == MultipleCurrencies)
  {
    AnswersIff(j.lines, 0.0, feeCurrency, tolerance);
    VerdictOnJournal(j.lines, 0.0, feeCurrency, tolerance);
  }

  /** With a fee the checkers part: conservation asks for debits that exceed credits by the fee. */
  lemma FeeShiftsTheBalance(j: Journal, fee: real, feeCurrency: string, tolerance: Option<real>)
    requires LinesOk(j.lines) && fee >= 0.0 && OneCurrency(j.lines, feeCurrency)
    ensures var r := Validated(Entries(j.lines), fee, feeCurrency, tolerance);
            r.Ok? && (r.value.conserved <==>
              Abs(Difference(j.lines) - fee) <= Tolerance(tolerance, DEFAULT_TOLERANCE))
  {
    AnswersIff(j.lines, fee, feeCurrency, tolerance);
    VerdictOnJournal(j.lines, fee, feeCurrency, tolerance);
  }
}
