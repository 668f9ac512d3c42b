/** The import loop of `run()`: each line of the product file is stripped,
    skipped when blank, split on commas, and either handed to
    `insert_product` (five or more fields) or reported as invalid. */
module Importer {
  import opened Schema
  import opened Transactions
  import opened KioskDb

  /** The characters Python's `str.isspace()` accepts: the ones `strip()` removes. */
  const Whitespace: set<char> := {
    '\U{9}', '\U{A}', '\U{B}', '\U{C}', '\U{D}', '\U{1C}', '\U{1D}', '\U{1E}', '\U{1F}',
    '\U{20}', '\U{85}', '\U{A0}', '\U{1680}', '\U{2000}', '\U{2001}', '\U{2002}', '\U{2003}',
    '\U{2004}', '\U{2005}', '\U{2006}', '\U{2007}', '\U{2008}', '\U{2009}', '\U{200A}',
    '\U{2028}', '\U{2029}', '\U{202F}', '\U{205F}', '\U{3000}'
  }

  predicate IsSpace(c: char) {
    c in Whitespace
  }

  predicate AllSpace(s: string) {
    forall i :: 0 <= i < |s| ==> IsSpace(s[i])
  }

  /** The number of whitespace characters `s` starts with. */
  function LeadingSpaces(s: string): (n: nat)
    ensures n <= |s|
  {
    if s != [] && IsSpace(s[0]) then 1 + LeadingSpaces(s[1..]) else 0
  }

  /** The number of whitespace characters `s` ends with. */
  function TrailingSpaces(s: string): (n: nat)
    ensures n <= |s|
  {
    if s != [] && IsSpace(s[|s| - 1]) then 1 + TrailingSpaces(s[..|s| - 1]) else 0
  }

  /** `strip()`: the line without its leading and its trailing whitespace. */
  function Strip(s: string): string {
    var a := LeadingSpaces(s);
    s[a..|s| - TrailingSpaces(s[a..])]
  }

  /** The leading run is whitespace, and it stops at the first other character. */
  lemma {:induction false} LeadingSpacesMeaning(s: string)
    ensures var n := LeadingSpaces(s); AllSpace(s[..n]) && (n < |s| ==> !IsSpace(s[n]))
    decreases |s|
  {
    if s != [] && IsSpace(s[0]) {
      var t := s[1..];
      var n := LeadingSpaces(t);
      LeadingSpacesMeaning(t);
      var p := s[..n + 1];
      forall i | 0 <= i < |p| ensures IsSpace(p[i]) {
        if i > 0 { assert p[i] == t[..n][i - 1]; }
      }
      if n + 1 < |s| { assert s[n + 1] == t[n]; }
    }
  }

  /** The trailing run is whitespace, and it stops at the last other character. */
  lemma {:induction false} TrailingSpacesMeaning(s: string)
    ensures var n := TrailingSpaces(s); AllSpace(s[|s| - n..]) && (n < |s| ==> !IsSpace(s[|s| - n - 1]))
    decreases |s|
  {
    if s != [] && IsSpace(s[|s| - 1]) {
      var t := s[..|s| - 1];
      var n := TrailingSpaces(t);
      TrailingSpacesMeaning(t);
      var p := s[|s| - (n + 1)..];
      forall i | 0 <= i < |p| ensures IsSpace(p[i]) {
        if i < n { assert p[i] == t[|t| - n..][i]; } else { assert p[i] == s[|s| - 1]; }
      }
      if n + 1 < |s| { assert s[|s| - n - 2] == t[|t| - n - 1]; }
    }
  }

  /** The stripped line is empty exactly when the line is all whitespace,
      and otherwise starts and ends with a non-space. */
  lemma StripMeaning(s: string)
    ensures Strip(s) == [] <==> AllSpace(s)
    ensures Strip(s) != [] ==> !IsSpace(Strip(s)[0]) && !IsSpace(Strip(s)[|Strip(s)| - 1])
  {
    var a := LeadingSpaces(s);
    LeadingSpacesMeaning(s);
    TrailingSpacesAfter(s, a);
    StripCut(s, a, TrailingSpaces(s[a..]));
  }

  /** The trailing whitespace of a suffix of `s`, read in `s` itself. */
  lemma TrailingSpacesAfter(s: string, a: nat)
    requires a <= |s|
    ensures var b := TrailingSpaces(s[a..]);
      && a + b <= |s| && AllSpace(s[|s| - b..])
      && (a + b < |s| ==> !IsSpace(s[|s| - b - 1]))
  {
    var t := s[a..];
    var b := TrailingSpaces(t);
    TrailingSpacesMeaning(t);
    var tail := s[|s| - b..];
    forall i | 0 <= i < b ensures IsSpace(tail[i]) {
      assert tail[i] == t[|t| - b..][i];
    }
    if b < |t| {
      assert t[|t| - b - 1] == s[|s| - b - 1];
    }
  }

  /** Cutting a whitespace prefix and suffix, each as long as it can be,
      off a text. */
  lemma StripCut(s: string, a: nat, b: nat)
    requires a + b <= |s| && AllSpace(s[..a]) && AllSpace(s[|s| - b..])
    requires a < |s| ==> !IsSpace(s[a])
    requires a + b < |s| ==> !IsSpace(s[|s| - b - 1])
    ensures var r := s[a..|s| - b];
      && (r == [] <==> AllSpace(s))
      && (r != [] ==> !IsSpace(r[0]) && !IsSpace(r[|r| - 1]))
  {
    if a == |s| {
      assert s[..a] == s;
    }
  }

  /** The number of commas in `s`. */
  function Commas(s: string): nat {
    if s == [] then 0 else (if s[0] == ',' then 1 else 0) + Commas(s[1..])
  }

  /** `s.split(',')`. */
  function Split(s: string): (r: seq<string>)
    ensures r != []
  {
    if s == [] then [""]
    else
      var rest := Split(s[1..]);
      if s[0] == ',' then [""] + rest else [[s[0]] + rest[0]] + rest[1..]
  }

  /** `s.split(',')` gives one field more than there are commas, none holding a comma. */
  lemma {:induction false} SplitShape(s: string)
    ensures |Split(s)| == Commas(s) + 1
    ensures forall i :: 0 <= i < |Split(s)| ==> ',' !in Split(s)[i]
  {
    if s != [] {
      SplitShape(s[1..]);
    }
  }

  /** `','.join(parts)`. */
  function Join(parts: seq<string>): string {
    if parts == [] then ""
    else if |parts| == 1 then parts[0]
    else parts[0] + "," + Join(parts[1..])
  }

  /** Joining the fields of a split gives the text back. */
  lemma {:induction false} JoinSplit(s: string)
    ensures Join(Split(s)) == s
  {
    if s != [] {
      var rest := Split(s[1..]);
      JoinSplit(s[1..]);
      if s[0] == ',' {
        assert ([""] + rest)[1..] == rest;
        assert s == "," + s[1..];
      } else {
        var tail := rest[1..];
        assert |rest| >= 1;
        if tail == [] {
          assert rest == [rest[0]];
        } else {
          assert ([[s[0]] + rest[0]] + tail)[1..] == tail;
          assert Join(rest) == rest[0] + "," + Join(tail);
        }
        assert s == [s[0]] + s[1..];
      }
    }
  }

  /** Splitting a join of comma-free fields gives the fields back. */
  lemma {:induction false} SplitJoin(parts: seq<string>)
    requires |parts| >= 1
    requires forall i :: 0 <= i < |parts| ==> ',' !in parts[i]
    ensures Split(Join(parts)) == parts
  {
    if |parts| == 1 {
      SplitFree(parts[0]);
    } else {
      var tail := parts[1..];
      SplitJoin(tail);
      SplitPrepend(parts[0], Join(tail));
      assert parts == [parts[0]] + tail;
    }
  }

  /** A comma-free text splits into itself. */
  lemma {:induction false} SplitFree(p: string)
    requires ',' !in p
    ensures Split(p) == [p]
  {
    if p != [] {
      assert p == [p[0]] + p[1..];
      SplitFree(p[1..]);
      assert p == [p[0]] + p[1..];
    }
  }

  /** Splitting `p + "," + rest` for a comma-free `p` gives `p` and then the
      fields of `rest`. */
  lemma {:induction false} SplitPrepend(p: string, rest: string)
    requires ',' !in p
    ensures Split(p + "," + rest) == [p] + Split(rest)
  {
    if p == [] {
      assert p + "," + rest == "," + rest;
      assert ("," + rest)[1..] == rest;
    } else {
      var w := p + "," + rest;
      assert w[1..] == p[1..] + "," + rest;
      assert p == [p[0]] + p[1..];
      SplitPrepend(p[1..], rest);
      assert [p[0]] + p[1..] == p;
    }
  }

  /** What the loop does with one line. */
  datatype LineKind =
    | Blank                        // skipped
    | Record(fields: seq<string>)  // five or more fields: inserted
    | Malformed(text: string)      // reported as invalid

  /** The classification in `run()`: blank lines are whitespace only; a line
      is a record exactly when its stripped text has at least four commas,
      and then its fields rejoin into that text. */
  function Classify(line: string): (k: LineKind)
    ensures k.Record? ==> |k.fields| >= 5
  {
    var text := Strip(line);
    if text == [] then Blank
    else
      var parts := Split(text);
      if |parts| >= 5 then Record(parts) else Malformed(text)
  }

  /** What the classification means, in terms of the line itself. */
  lemma ClassifyMeaning(line: string)
    ensures var k := Classify(line);
      && (k == Blank <==> AllSpace(line))
      && (k.Record? <==> !AllSpace(line) && Commas(Strip(line)) >= 4)
      && (k.Record? ==> Join(k.fields) == Strip(line))
      && (k.Malformed? ==> k.text == Strip(line) && Commas(k.text) < 4)
  {
    StripMeaning(line);
    SplitShape(Strip(line));
    JoinSplit(Strip(line));
  }

  /** A line holding a product record. */
  lemma ClassifyMilk(line: string)
    requires line == "Milk,Dairy,24,5,49.50\n"
    ensures Classify(line) == Record(["Milk", "Dairy", "24", "5", "49.50"])
  {
    var text := "Milk,Dairy,24,5,49.50";
    MilkFacts(line, text);
    StripNewline(line, text);
    SplitFive(text, "Milk", "Dairy", "24", "5", "49.50");
    ClassifyStripped(line, text, ["Milk", "Dairy", "24", "5", "49.50"]);
  }

  lemma MilkFacts(line: string, text: string)
    requires line == "Milk,Dairy,24,5,49.50\n" && text == "Milk,Dairy,24,5,49.50"
    ensures line == text + "\n" && LeadingSpaces(line) == 0 && TrailingSpaces(text) == 0
    ensures text == "Milk" + "," + ("Dairy" + "," + ("24" + "," + ("5" + "," + "49.50")))
  {
    assert line[0] == 'M' && text[|text| - 1] == '0';
    NoLeadingSpace(line);
    NoTrailingSpace(text);
    MilkFields(text);
  }

  lemma MilkFields(text: string)
    requires text == "Milk,Dairy,24,5,49.50"
    ensures text == "Milk" + "," + ("Dairy" + "," + ("24" + "," + ("5" + "," + "49.50")))
  {
  }

  lemma NoLeadingSpace(s: string)
    requires s != [] && !IsSpace(s[0])
    ensures LeadingSpaces(s) == 0
  {
  }

  lemma NoTrailingSpace(s: string)
    requires s != [] && !IsSpace(s[|s| - 1])
    ensures TrailingSpaces(s) == 0
  {
  }

  /** A line with too few fields. */
  lemma ClassifyBadLine(line: string)
    requires line == "BadLine,OnlyThree"
    ensures Classify(line) == Malformed(line)
  {
    BadLineFacts(line);
    StripUnpadded(line);
    SplitTwo(line, "BadLine", "OnlyThree");
    ClassifyStripped(line, line, ["BadLine", "OnlyThree"]);
  }

  lemma BadLineFacts(line: string)
    requires line == "BadLine,OnlyThree"
    ensures line != [] && !IsSpace(line[0]) && !IsSpace(line[|line| - 1])
    ensures line == "BadLine" + "," + "OnlyThree" && ',' !in "BadLine" && ',' !in "OnlyThree"
  {
    assert line[0] == 'B' && line[|line| - 1] == 'e';
  }

  lemma StripUnpadded(s: string)
    requires s != [] && !IsSpace(s[0]) && !IsSpace(s[|s| - 1])
    ensures Strip(s) == s
  {
    NoLeadingSpace(s);
    NoTrailingSpace(s);
  }

  lemma StripNewline(line: string, text: string)
    requires line == text + "\n" && LeadingSpaces(line) == 0 && TrailingSpaces(text) == 0
    ensures Strip(line) == text
  {
    assert line[..|line| - 1] == text;
  }

  lemma ClassifyStripped(line: string, text: string, parts: seq<string>)
    requires Strip(line) == text && text != [] && Split(text) == parts
    ensures Classify(line) == if |parts| >= 5 then Record(parts) else Malformed(text)
  {
  }

  lemma SplitTwo(x: string, a: string, b: string)
    requires x == a + "," + b && ',' !in a && ',' !in b
    ensures Split(x) == [a, b]
  {
    SplitPrepend(a, b);
    SplitFree(b);
  }

  lemma SplitFive(x: string, a: string, b: string, c: string, d: string, e: string)
    requires x == a + "," + (b + "," + (c + "," + (d + "," + e)))
    requires ',' !in a && ',' !in b && ',' !in c && ',' !in d && ',' !in e
    ensures Split(x) == [a, b, c, d, e]
  {
    SplitFree(e);
    SplitPrepend(d, e);
    SplitPrepend(c, d + "," + e);
    SplitPrepend(b, c + "," + (d + "," + e));
    SplitPrepend(a, b + "," + (c + "," + (d + "," + e)));
  }

  /** What `run()` prints for a line it did not skip. */
  datatype Report = Added(name: string, ids: IdPair) | InvalidFormat(text: string)

  /** The loop's state: the tables, the reports so far, and the exception
      that has escaped, if any: a ValueError from `int()`/`float()`, or an
      OverflowError from `insert_product`. */
  datatype Import = Import(store: Store, reports: seq<Report>, crash: Option<Exception>)

  /** The number of reports of a successful insert. */
  function Successes(reports: seq<Report>): nat {
    if reports == [] then 0
    else Successes(reports[..|reports| - 1])
         + (var last := reports[|reports| - 1]; if last.Added? && last.ids.0.Some? then 1 else 0)
  }

  lemma SuccessesAppend(reports: seq<Report>, last: Report)
    ensures Successes(reports + [last]) ==
            Successes(reports) + if last.Added? && last.ids.0.Some? then 1 else 0
  {
    assert (reports + [last])[..|reports|] == reports;
  }

  /** A classification as `Classify` produces it: a record has at least five fields. */
  predicate Shaped(k: LineKind) {
    k.Record? ==> |k.fields| >= 5
  }

  predicate AllShaped(kinds: seq<LineKind>) {
    forall j :: 0 <= j < |kinds| ==> Shaped(kinds[j])
  }

  /** The classification of every line of the file. */
  function Kinds(lines: seq<string>): (r: seq<LineKind>)
    ensures |r| == |lines| && AllShaped(r)
    ensures forall j :: 0 <= j < |lines| ==> r[j] == Classify(lines[j])
  {
    seq(|lines|, j requires 0 <= j < |lines| => Classify(lines[j]))
  }

  /** One iteration of the loop, for the line at `index` classified as
      `kind`. Blank and malformed lines never reach the store; a record
      whose numbers do not parse raises ValueError before any write, and
      an exception `insert_product` raises ends the loop as well. */
  function ImportLine(st: Import, kind: LineKind, index: nat, parseInt: string -> Option<int>,
                      parseFloat: string -> Option<int>, fault: nat -> Option<Step>): (r: Import)
    requires !st.crash.Some? && Shaped(kind)
    ensures kind == Blank ==> r == st
    ensures kind.Malformed? ==> r == st.(reports := st.reports + [InvalidFormat(kind.text)])
    ensures !kind.Record? ==> r.store == st.store
    ensures r.crash.Some? ==> r.store == st.store && r.reports == st.reports
    ensures r.reports == st.reports || (|r.reports| == |st.reports| + 1 && r.reports[..|st.reports|] == st.reports)
  {
    match kind
    case Blank => st
    case Malformed(text) => st.(reports := st.reports + [InvalidFormat(text)])
    case Record(fields) =>
      var pieces, stocks, price := parseInt(fields[2]), parseInt(fields[3]), parseFloat(fields[4]);
      if pieces.None? || stocks.None? || price.None? then st.(crash := Some(ValueError))
      else
        var e := Insert(Open, st.store, fields[0], fields[1], pieces.value, stocks.value, price.value,
                        None, fault(index));
        AfterInsert(st, fields[0], e)
  }

  /** The loop state once `insert_product` has returned for the product
      `name`, or raised: an escaping exception ends the loop. */
  function AfterInsert(st: Import, name: string, e: Effect<IdPair>): Import {
    match e.result
    case Raised(error) => st.(crash := Some(error))
    case Returned(ids) => st.(store := e.store, reports := st.reports + [Added(name, ids)])
  }

  /** In terms of the line itself: a whitespace-only line is skipped, and a
      stripped line with fewer than four commas (fewer than five fields) is
      reported as invalid and never reaches `insert_product`. */
  lemma SkippedLines(st: Import, line: string, index: nat, parseInt: string -> Option<int>,
                     parseFloat: string -> Option<int>, fault: nat -> Option<Step>)
    requires !st.crash.Some?
    ensures AllSpace(line) ==> ImportLine(st, Classify(line), index, parseInt, parseFloat, fault) == st
    ensures !AllSpace(line) && Commas(Strip(line)) < 4 ==>
      ImportLine(st, Classify(line), index, parseInt, parseFloat, fault) ==
        st.(reports := st.reports + [InvalidFormat(Strip(line))])
  {
    ClassifyMeaning(line);
  }

  /** A record line: its first two fields are the name and the category,
      the next two go through `int()` and the fifth through `float()`, and
      `insert_product` gets them with no picture. A number that does not
      parse raises ValueError before any write; once BEGIN and compiling the
      parent INSERT have succeeded, a count too large to bind raises
      OverflowError. Otherwise the parent and the child row are
      added, or nothing on a failing call, and the ids are reported under
      the first field. */
  lemma RecordLine(st: Import, fields: seq<string>, index: nat, parseInt: string -> Option<int>,
                   parseFloat: string -> Option<int>, fault: nat -> Option<Step>)
    requires st.crash.None? && |fields| >= 5
    ensures var r := ImportLine(st, Record(fields), index, parseInt, parseFloat, fault);
      var pieces, stocks, price := parseInt(fields[2]), parseInt(fields[3]), parseFloat(fields[4]);
      var fid, kid := st.store.frozenSeq + 1, st.store.kioskSeq + 1;
      && (pieces.None? || stocks.None? || price.None? ==> r == st.(crash := Some(ValueError)))
      && (pieces.Some? && stocks.Some? && price.Some? ==>
            var p, q, c := pieces.value, stocks.value, price.value;
            && (!InsertBinds(p, q) && !InsertEarlyFault(fault(index)) ==> r == st.(crash := Some(OverflowError)))
            && (fault(index).Some? && (InsertBinds(p, q) || InsertEarlyFault(fault(index))) ==>
                  r == st.(reports := st.reports + [Added(fields[0], NoIds)]))
            && (InsertBinds(p, q) && fault(index) == None ==>
                  && r.crash == None
                  && r.reports == st.reports + [Added(fields[0], (Some(fid), Some(kid)))]
                  && r.store.frozen == st.store.frozen[fid := ParentRow(fields[0], fields[1], p, q)]
                  && r.store.kiosk == st.store.kiosk[kid := ChildRow(fid, fields[0], fields[1], p, q, c, None)]))
  {
  }

  /** The Milk line, with `int()` giving 24 and 5, adds the product Milk of
      category Dairy with 24 pieces, 5 stocks, the parsed price and no
      picture under the next two ids, and reports it. */
  lemma ImportMilk(st: Import, line: string, index: nat, parseInt: string -> Option<int>,
                   parseFloat: string -> Option<int>, fault: nat -> Option<Step>)
    requires line == "Milk,Dairy,24,5,49.50\n" && st.crash.None?
    requires parseInt("24") == Some(24) && parseInt("5") == Some(5) && parseFloat("49.50").Some?
    requires fault(index) == None
    ensures var r := ImportLine(st, Classify(line), index, parseInt, parseFloat, fault);
      var fid, kid := st.store.frozenSeq + 1, st.store.kioskSeq + 1;
      && r.crash == None
      && r.reports == st.reports + [Added("Milk", (Some(fid), Some(kid)))]
      && r.store.frozen == st.store.frozen[fid := ParentRow("Milk", "Dairy", 24, 5)]
      && r.store.kiosk ==
         st.store.kiosk[kid := ChildRow(fid, "Milk", "Dairy", 24, 5, parseFloat("49.50").value, None)]
  {
    ClassifyMilk(line);
    RecordLine(st, ["Milk", "Dairy", "24", "5", "49.50"], index, parseInt, parseFloat, fault);
  }

  /** What one iteration may do to the loop state: keep the table
      invariants, only add rows, and add one parent and one child row
      exactly per further reported success. */
  predicate Grows(st: Import, r: Import) {
    && (StoreValid(st.store) ==> StoreValid(r.store))
    && (Linked(st.store) ==> Linked(r.store))
    && r.store.frozen.Keys >= st.store.frozen.Keys && r.store.kiosk.Keys >= st.store.kiosk.Keys
    && Successes(r.reports) >= Successes(st.reports)
    && |r.store.frozen| == |st.store.frozen| + (Successes(r.reports) - Successes(st.reports))
    && |r.store.kiosk| == |st.store.kiosk| + (Successes(r.reports) - Successes(st.reports))
  }

  lemma GrowsTrans(a: Import, b: Import, c: Import)
    requires Grows(a, b) && Grows(b, c)
    ensures Grows(a, c)
  {
  }

  /** One iteration keeps the table invariants, only adds rows, and adds one
      parent and one child row exactly when it reports a successful insert. */
  lemma ImportLineKeeps(st: Import, kind: LineKind, index: nat, parseInt: string -> Option<int>,
                        parseFloat: string -> Option<int>, fault: nat -> Option<Step>)
    requires !st.crash.Some? && Shaped(kind) && StoreValid(st.store)
    ensures var r := ImportLine(st, kind, index, parseInt, parseFloat, fault);
      StoreValid(r.store) && Grows(st, r)
  {
    match kind
    case Blank =>
    case Malformed(text) =>
      SuccessesAppend(st.reports, InvalidFormat(text));
    case Record(f) =>
      var pieces, stocks, price := parseInt(f[2]), parseInt(f[3]), parseFloat(f[4]);
      if pieces.Some? && stocks.Some? && price.Some? {
        InsertLineKeeps(st, f[0], f[1], pieces.value, stocks.value, price.value, fault(index));
      }
  }

  /** The iteration for a record whose numbers parsed: the insert and its
      report, or the exception it raised. */
  lemma InsertLineKeeps(st: Import, name: string, category: string, pieces: int, stocks: int, price: int,
                        fault: Option<Step>)
    requires StoreValid(st.store)
    ensures var e := Insert(Open, st.store, name, category, pieces, stocks, price, None, fault);
      var r := AfterInsert(st, name, e);
      StoreValid(r.store) && Grows(st, r)
  {
    var e := Insert(Open, st.store, name, category, pieces, stocks, price, None, fault);
    InsertKeeps(Open, st.store, name, category, pieces, stocks, price, None, fault);
    if e.result.Returned? {
      SuccessesAppend(st.reports, Added(name, e.result.value));
    }
  }

  /** The loop from the line at `i` on, given its state so far; once a
      exception has escaped no further line is read. */
  function ImportFrom(st: Import, kinds: seq<LineKind>, i: nat, parseInt: string -> Option<int>,
                      parseFloat: string -> Option<int>, fault: nat -> Option<Step>): Import
    requires i <= |kinds| && AllShaped(kinds)
    decreases |kinds| - i
  {
    if i == |kinds| || st.crash.Some? then st
    else ImportFrom(ImportLine(st, kinds[i], i, parseInt, parseFloat, fault), kinds, i + 1,
                    parseInt, parseFloat, fault)
  }

  /** One more line of the loop: stop once an exception has escaped,
      otherwise run its iteration and go on. */
  lemma ImportFromStep(st: Import, kinds: seq<LineKind>, i: nat, parseInt: string -> Option<int>,
                       parseFloat: string -> Option<int>, fault: nat -> Option<Step>)
    requires i < |kinds| && AllShaped(kinds)
    ensures ImportFrom(st, kinds, i, parseInt, parseFloat, fault) ==
            if st.crash.Some? then st
            else ImportFrom(ImportLine(st, kinds[i], i, parseInt, parseFloat, fault), kinds, i + 1,
                            parseInt, parseFloat, fault)
  {
  }

  /** The whole loop of `run()` over the lines of the product file. */
  function ImportAll(s: Store, lines: seq<string>, parseInt: string -> Option<int>,
                     parseFloat: string -> Option<int>, fault: nat -> Option<Step>): Import {
    ImportFrom(Import(s, [], None), Kinds(lines), 0, parseInt, parseFloat, fault)
  }

  /** The rest of the loop keeps the table invariants, never removes a row,
      and adds one parent and one child row per further reported success. */
  lemma {:induction false} ImportFromKeeps(st: Import, kinds: seq<LineKind>, i: nat,
                                           parseInt: string -> Option<int>,
                                           parseFloat: string -> Option<int>, fault: nat -> Option<Step>)
    requires StoreValid(st.store) && i <= |kinds| && AllShaped(kinds)
    ensures var r := ImportFrom(st, kinds, i, parseInt, parseFloat, fault);
      StoreValid(r.store) && Grows(st, r)
    decreases |kinds| - i
  {
    if i < |kinds| && !st.crash.Some? {
      var next := ImportLine(st, kinds[i], i, parseInt, parseFloat, fault);
      ImportFromStep(st, kinds, i, parseInt, parseFloat, fault);
      ImportLineKeeps(st, kinds[i], i, parseInt, parseFloat, fault);
      ImportFromKeeps(next, kinds, i + 1, parseInt, parseFloat, fault);
      GrowsTrans(st, next, ImportFrom(next, kinds, i + 1, parseInt, parseFloat, fault));
    } else {
      assert ImportFrom(st, kinds, i, parseInt, parseFloat, fault) == st;
    }
  }

  /** The whole loop keeps the table invariants and only adds rows: one
      parent and one child per reported success. */
  lemma ImportAllKeeps(s: Store, lines: seq<string>, parseInt: string -> Option<int>,
                       parseFloat: string -> Option<int>, fault: nat -> Option<Step>)
    requires StoreValid(s)
    ensures var r := ImportAll(s, lines, parseInt, parseFloat, fault);
      && StoreValid(r.store)
      && (Linked(s) ==> Linked(r.store))
      && r.store.frozen.Keys >= s.frozen.Keys && r.store.kiosk.Keys >= s.kiosk.Keys
      && |r.store.frozen| == |s.frozen| + Successes(r.reports)
      && |r.store.kiosk| == |s.kiosk| + Successes(r.reports)
  {
    ImportFromKeeps(Import(s, [], None), Kinds(lines), 0, parseInt, parseFloat, fault);
  }

  /** Once an exception has escaped, the rest of the file is never read:
      lines appended after the one that raised change nothing. */
  lemma {:induction false} AbortStopsReading(st: Import, kinds: seq<LineKind>, more: seq<LineKind>, i: nat,
                                            parseInt: string -> Option<int>,
                                            parseFloat: string -> Option<int>,
                                            fault: nat -> Option<Step>)
    requires i <= |kinds| && AllShaped(kinds) && AllShaped(more)
    requires ImportFrom(st, kinds, i, parseInt, parseFloat, fault).crash.Some?
    ensures AllShaped(kinds + more)
    ensures ImportFrom(st, kinds + more, i, parseInt, parseFloat, fault) ==
            ImportFrom(st, kinds, i, parseInt, parseFloat, fault)
    decreases |kinds| - i
  {
    assert forall j :: 0 <= j < |kinds + more| ==> (kinds + more)[j] == if j < |kinds| then kinds[j] else more[j - |kinds|];
    if !st.crash.Some? {
      assert (kinds + more)[i] == kinds[i];
      var next := ImportLine(st, kinds[i], i, parseInt, parseFloat, fault);
      AbortStopsReading(next, kinds, more, i + 1, parseInt, parseFloat, fault);
    }
  }

  /** How `run()` ends. */
  datatype RunOutcome =
    | ConnectionFailed     // "Database connection failed."
    | FileMissing          // "Product file not found: ..."
    | Imported             // "All products have been imported.", then close()
    | Crashed(error: Exception)

  /** One pass of the loop body of `run()` on an open connection: the
      reports it adds and the exception that escaped, if any. */
  method RunLine(db: Database, reports: seq<Report>, line: string, index: nat,
                 parseInt: string -> Option<int>, parseFloat: string -> Option<int>,
                 fault: nat -> Option<Step>)
    returns (reports': seq<Report>, crash: Option<Exception>)
    requires db.Valid() && db.conn == Open
    modifies db
    ensures db.Valid() && db.conn == Open
    ensures Import(db.tables, reports', crash) ==
            ImportLine(Import(old(db.tables), reports, None), Classify(line), index, parseInt, parseFloat, fault)
  {
    var text := Strip(line);
    if text == [] {
      assert Classify(line) == Blank;
      return reports, None;
    }
    var parts := Split(text);
    if |parts| < 5 {
      assert Classify(line) == Malformed(text);
      return reports + [InvalidFormat(text)], None;
    }
    assert Classify(line) == Record(parts);
    var pieces, stocks, price := parseInt(parts[2]), parseInt(parts[3]), parseFloat(parts[4]);
    if pieces.None? || stocks.None? || price.None? {
      // int() or float() raises ValueError, which nothing catches
      return reports, Some(ValueError);
    }
    var ids := db.InsertProduct(parts[0], parts[1], pieces.value, stocks.value, price.value, None, fault(index));
    match ids {
      case Raised(error) =>
        // nothing in run() catches the OverflowError either
        return reports, Some(error);
      case Returned(pair) =>
        return reports + [Added(parts[0], pair)], None;
    }
  }

  /** `run()` with the connection outcome, whether the product file exists,
      the database file's tables, the file's lines, the numeric parsers and
      the insert fault oracle (by line index) as inputs. It returns how the
      run ended, what it reported, the tables it leaves and the state of its
      connection: only a run that reaches the end of the file closes it. */
  method Run(connected: bool, fileExists: bool, disk: Store, lines: seq<string>,
             parseInt: string -> Option<int>, parseFloat: string -> Option<int>,
             fault: nat -> Option<Step>)
    returns (outcome: RunOutcome, reports: seq<Report>, final: Store, conn: Conn)
    requires StoreValid(disk)
    ensures !connected ==> outcome == ConnectionFailed && reports == [] && final == disk && conn == NoConn
    ensures connected && !fileExists ==> outcome == FileMissing && reports == [] && final == disk && conn == Open
    ensures connected && fileExists ==>
      var r := ImportAll(disk, lines, parseInt, parseFloat, fault);
      && reports == r.reports && final == r.store
      && outcome == (if r.crash.Some? then Crashed(r.crash.value) else Imported)
      && conn == (if r.crash.Some? then Open else Closed)
  {
    var db := new Database(connected, disk);
    if db.conn == NoConn {
      return ConnectionFailed, [], db.tables, db.conn;
    }
    if !fileExists {
      return FileMissing, [], db.tables, db.conn;
    }
    reports := [];
    ghost var kinds := Kinds(lines);
    var i := 0;
    while i < |lines|
      invariant 0 <= i <= |lines|
      invariant db.Valid() && db.conn == Open
      invariant ImportAll(disk, lines, parseInt, parseFloat, fault) ==
                ImportFrom(Import(db.tables, reports, None), kinds, i, parseInt, parseFloat, fault)
    {
      var crash;
      ghost var st := Import(db.tables, reports, None);
      ImportFromStep(st, kinds, i, parseInt, parseFloat, fault);
      reports, crash := RunLine(db, reports, lines[i], i, parseInt, parseFloat, fault);
      assert Import(db.tables, reports, crash) == ImportLine(st, kinds[i], i, parseInt, parseFloat, fault);
      if crash.Some? {
        // the exception leaves run() before close() is reached
        return Crashed(crash.value), reports, db.tables, db.conn;
      }
      i := i + 1;
    }
    assert ImportFrom(Import(db.tables, reports, None), kinds, i, parseInt, parseFloat, fault) ==
           Import(db.tables, reports, None);
    db.Close();
    return Imported, reports, db.tables, db.conn;
  }
}
