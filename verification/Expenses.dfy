/** Subtotals of moving expenses on the shipment summary worksheet, in cents. The totals are kept under
    printed names, so that what is proved of them rests on the names telling types and payments apart. */
module Expenses {
  datatype Document = Document(kind: string, cents: int, paymentMethod: string)

  predicate IsUpper(c: char) {
    'A' <= c <= 'Z'
  }

  predicate IsLower(c: char) {
    'a' <= c <= 'z'
  }

  function ToUpper(c: char): char {
    if IsLower(c) then c - 'a' + 'A' else c
  }

  function ToLower(c: char): char {
    if IsUpper(c) then c - 'A' + 'a' else c
  }

  /** What the words of a title stand between. */
  predicate IsSeparator(c: char) {
    !(IsUpper(c) || IsLower(c) || '0' <= c <= '9' || c == '_')
  }

  function LowerSpaced(s: string): string {
    seq(|s|, i requires 0 <= i < |s| => if s[i] == '_' then ' ' else ToLower(s[i]))
  }

  /** Letters that follow a separator become capitals. */
  function Title(s: string, previous: char): string {
    if s == "" then "" else [if IsSeparator(previous) then ToUpper(s[0]) else s[0]] + Title(s[1..], s[0])
  }

  function ReplaceSpaces(s: string, outSep: string): string {
    if s == "" then "" else (if s[0] == ' ' then outSep else [s[0]]) + ReplaceSpaces(s[1..], outSep)
  }

  function FormatEnum(s: string, outSep: string): string {
    ReplaceSpaces(Title(LowerSpaced(s), ' '), outSep)
  }

  /** A capital, or an underscore that a capital follows. */
  predicate InsideAt(s: string, i: nat)
    requires i < |s|
  {
    IsUpper(s[i]) || (s[i] == '_' && i + 1 < |s| && IsUpper(s[i + 1]))
  }

  /** The rest of such a name, inside a word. */
  predicate Inside(s: string) {
    forall i: nat :: i < |s| ==> InsideAt(s, i)
  }

  /** Names like those of the expense types: words of capitals, joined by single underscores. */
  predicate EnumName(s: string) {
    s != "" && IsUpper(s[0]) && Inside(s)
  }

  /** Undoes FormatEnum: a capital begins a word, and every word but the first follows an underscore. */
  function Unformat(t: string): string {
    if t == "" then "" else [ToUpper(t[0])] + UnformatInside(t[1..])
  }

  function UnformatInside(t: string): string {
    if t == "" then "" else (if IsUpper(t[0]) then ['_'] else []) + [ToUpper(t[0])] + UnformatInside(t[1..])
  }

  lemma LowerSpacedStep(s: string)
    requires s != ""
    ensures LowerSpaced(s) == [if s[0] == '_' then ' ' else ToLower(s[0])] + LowerSpaced(s[1..])
  {
  }

  lemma TitleStep(c: char, rest: string, previous: char)
    ensures Title([c] + rest, previous) == [if IsSeparator(previous) then ToUpper(c) else c] + Title(rest, c)
  {
  }

  lemma ReplaceSpacesStep(c: char, rest: string)
    ensures ReplaceSpaces([c] + rest, "") == (if c == ' ' then "" else [c]) + ReplaceSpaces(rest, "")
  {
  }

  /** A letter inside a word becomes small and stays in place. */
  lemma LetterInside(s: string, previous: char)
    requires s != "" && IsUpper(s[0]) && IsLower(previous)
    ensures UnformatInside(ReplaceSpaces(Title(LowerSpaced(s), previous), "")) ==
            [s[0]] + UnformatInside(ReplaceSpaces(Title(LowerSpaced(s[1..]), ToLower(s[0])), ""))
  {
    LowerSpacedStep(s);
  }

  /** An underscore goes, and the letter after it stays a capital. */
  lemma UnderscoreInside(s: string, previous: char)
    requires |s| > 1 && s[0] == '_' && IsUpper(s[1]) && IsLower(previous)
    ensures UnformatInside(ReplaceSpaces(Title(LowerSpaced(s), previous), "")) ==
            [s[0], s[1]] + UnformatInside(ReplaceSpaces(Title(LowerSpaced(s[2..]), ToLower(s[1])), ""))
  {
    hide Title, ReplaceSpaces, LowerSpaced;
    LowerSpacedStep(s);
    LowerSpacedStep(s[1..]);
    assert s[1..][1..] == s[2..];
    var small, rest := ToLower(s[1]), LowerSpaced(s[2..]);
    TitleStep(' ', [small] + rest, previous);
    TitleStep(small, rest, ' ');
    ReplaceSpacesStep(' ', [s[1]] + Title(rest, small));
    ReplaceSpacesStep(s[1], Title(rest, small));
    assert LowerSpaced(s) == [' '] + ([small] + rest);
    var printed := ReplaceSpaces(Title(rest, small), "");
    assert ReplaceSpaces(Title(LowerSpaced(s), previous), "") == [s[1]] + printed;
    assert ([s[1]] + printed)[1..] == printed;
  }

  lemma {:induction false} UnformatInsideInverts(s: string, previous: char)
    requires Inside(s) && IsLower(previous)
    ensures UnformatInside(ReplaceSpaces(Title(LowerSpaced(s), previous), "")) == s
    decreases |s|
  {
    hide UnformatInside, ReplaceSpaces, Title, LowerSpaced;
    if s == "" {
      Nothing(previous);
    } else {
      assert InsideAt(s, 0);
      InsideTail(s, 1);
      if s[0] == '_' {
        UnderscoreInside(s, previous);
        InsideTail(s, 2);
        UnformatInsideInverts(s[2..], ToLower(s[1]));
        assert s == [s[0], s[1]] + s[2..];
      } else {
        LetterInside(s, previous);
        UnformatInsideInverts(s[1..], ToLower(s[0]));
      }
    }
  }

  lemma Nothing(previous: char)
    ensures UnformatInside(ReplaceSpaces(Title(LowerSpaced(""), previous), "")) == ""
  {
  }

  lemma InsideTail(s: string, n: nat)
    requires Inside(s) && n <= |s|
    ensures Inside(s[n..])
  {
    forall i: nat | i < |s[n..]| ensures InsideAt(s[n..], i) {
      assert InsideAt(s, n + i);
    }
  }

  /** The printed form of a type's name determines the name. */
  lemma UnformatInverts(s: string)
    requires EnumName(s)
    ensures Unformat(FormatEnum(s, "")) == s
  {
    LowerSpacedStep(s);
    InsideTail(s, 1);
    UnformatInsideInverts(s[1..], ToLower(s[0]));
  }

  /** The name under which a total is kept. */
  function Key(kind: string, gtcc: bool): string {
    FormatEnum(kind, "") + if gtcc then "GTCCPaid" else "MemberPaid"
  }

  function GetExpenseType(d: Document): string {
    Key(d.kind, d.paymentMethod == "GTCC")
  }

  predicate HasSuffix(s: string, suffix: string) {
    |suffix| <= |s| && s[|s| - |suffix|..] == suffix
  }

  function GrandTotal(gtcc: bool): string {
    if gtcc then "TotalGTCCPaid" else "TotalMemberPaid"
  }

  lemma SuffixTells(kind: string, gtcc: bool)
    ensures HasSuffix(Key(kind, gtcc), "GTCCPaid") <==> gtcc
  {
    var n := |FormatEnum(kind, "")|;
    if gtcc {
      assert Key(kind, gtcc)[n..] == "GTCCPaid";
    } else {
      assert Key(kind, gtcc)[n..] == "MemberPaid";
      assert Key(kind, gtcc)[n + 2] == 'm';
    }
  }

  /** Different types or ways of payment are never kept under the same name. */
  lemma KeyIsInjective(a: string, x: bool, b: string, y: bool)
    requires EnumName(a) && EnumName(b) && Key(a, x) == Key(b, y)
    ensures a == b && x == y
  {
    SuffixTells(a, x);
    SuffixTells(b, y);
    UnformatInverts(a);
    UnformatInverts(b);
    var tail := if x then 8 else 10;
    assert FormatEnum(a, "") == Key(a, x)[..|Key(a, x)| - tail];
    assert FormatEnum(b, "") == Key(b, y)[..|Key(b, y)| - tail];
  }

  lemma {:induction false} PlainWord(s: string, previous: char)
    requires IsLower(previous) && forall i :: 0 <= i < |s| ==> IsLower(s[i])
    ensures Title(s, previous) == s && ReplaceSpaces(s, "") == s
    decreases |s|
  {
    if s != "" {
      PlainWord(s[1..], s[0]);
    }
  }

  /** A single word keeps its first capital only. */
  lemma FormatWord(word: string, rest: string)
    requires |word| == |rest| + 1 && IsUpper(word[0])
    requires forall i :: 0 <= i < |rest| ==> IsUpper(word[i + 1]) && rest[i] == ToLower(word[i + 1])
    ensures FormatEnum(word, "") == [word[0]] + rest
  {
    hide Title, ReplaceSpaces;
    LowerSpacedStep(word);
    assert LowerSpaced(word[1..]) == rest;
    PlainWord(rest, ToLower(word[0]));
    TitleStep(ToLower(word[0]), rest, ' ');
    ReplaceSpacesStep(word[0], rest);
  }

  /** A grand total has the name of a type called TOTAL. */
  lemma GrandTotalIsTotal(gtcc: bool)
    ensures EnumName("TOTAL") && Key("TOTAL", gtcc) == GrandTotal(gtcc)
  {
    hide FormatEnum, EnumName;
    TotalIsAName();
    TotalPrints();
  }

  lemma TotalIsAName()
    ensures EnumName("TOTAL")
  {
    hide FormatEnum;
  }

  lemma TotalPrints()
    ensures FormatEnum("TOTAL", "") == "Total"
  {
    hide FormatEnum, EnumName;
    var word, rest := "TOTAL", "otal";
    assert word[1] == 'O' && word[2] == 'T' && word[3] == 'A' && word[4] == 'L';
    assert rest[0] == 'o' && rest[1] == 't' && rest[2] == 'a' && rest[3] == 'l';
    FormatWord(word, rest);
    assert ['T'] + "otal" == "Total";
  }

  type Totals = map<string, int>

  /** A name that was never added to reads as zero. */
  function At(totals: Totals, key: string): int {
    if key in totals then totals[key] else 0
  }

  /** What one document adds under a name. */
  function Adds(d: Document, key: string): int {
    (if GetExpenseType(d) == key then d.cents else 0) +
    (if GrandTotal(d.paymentMethod == "GTCC") == key then d.cents else 0)
  }

  function Booked(docs: seq<Document>, key: string): int {
    if docs == [] then 0 else Booked(docs[..|docs| - 1], key) + Adds(docs[|docs| - 1], key)
  }

  method AddToGrandTotal(totals: Totals, key: string, amount: int) returns (r: Totals)
    ensures var grand := GrandTotal(HasSuffix(key, "GTCCPaid")); r == totals[grand := At(totals, grand) + amount]
  {
    if HasSuffix(key, "GTCCPaid") {
      r := totals["TotalGTCCPaid" := At(totals, "TotalGTCCPaid") + amount];
    } else {
      r := totals["TotalMemberPaid" := At(totals, "TotalMemberPaid") + amount];
    }
  }

  lemma BookedNext(docs: seq<Document>, i: nat)
    requires i < |docs|
    ensures forall key :: Booked(docs[..i + 1], key) == Booked(docs[..i], key) + Adds(docs[i], key)
  {
    assert docs[..i + 1][..i] == docs[..i];
  }

  lemma NothingBooked(docs: seq<Document>)
    ensures forall key :: Booked(docs[..0], key) == 0
  {
  }

  /** One document goes to its own total and to a grand total. */
  method AddDocument(totals: Totals, d: Document) returns (r: Totals)
    ensures forall key :: At(r, key) == At(totals, key) + Adds(d, key)
  {
    hide Key, HasSuffix;
    SuffixTells(d.kind, d.paymentMethod == "GTCC");
    var expenseType := GetExpenseType(d);
    r := totals[expenseType := At(totals, expenseType) + d.cents];
    r := AddToGrandTotal(r, expenseType, d.cents);
  }

  method SubTotalExpenses(docs: seq<Document>) returns (totals: Totals)
    ensures forall key :: At(totals, key) == Booked(docs, key)
  {
    hide Booked, Adds;
    totals := map[];
    NothingBooked(docs);
    for i := 0 to |docs|
      invariant forall key :: At(totals, key) == Booked(docs[..i], key)
    {
      BookedNext(docs, i);
      totals := AddDocument(totals, docs[i]);
    }
    assert docs[..|docs|] == docs;
  }

  /** A name a document may carry without disturbing the grand totals. */
  predicate Proper(d: Document) {
    EnumName(d.kind) && d.kind != "TOTAL"
  }

  predicate Paid(d: Document, gtcc: bool) {
    (d.paymentMethod == "GTCC") == gtcc
  }

  /** The money of the documents of one type and way of payment. */
  function OfKind(docs: seq<Document>, kind: string, gtcc: bool): int {
    if docs == [] then 0
    else
      var d := docs[|docs| - 1];
      OfKind(docs[..|docs| - 1], kind, gtcc) + if d.kind == kind && Paid(d, gtcc) then d.cents else 0
  }

  /** The money of the documents of one way of payment. */
  function PaidBy(docs: seq<Document>, gtcc: bool): int {
    if docs == [] then 0
    else PaidBy(docs[..|docs| - 1], gtcc) + if Paid(docs[|docs| - 1], gtcc) then docs[|docs| - 1].cents else 0
  }

  lemma AddsToItsKind(d: Document, kind: string, gtcc: bool)
    requires EnumName(d.kind) && EnumName(kind) && kind != "TOTAL"
    ensures Adds(d, Key(kind, gtcc)) == if d.kind == kind && Paid(d, gtcc) then d.cents else 0
  {
    hide Key, EnumName;
    var way := d.paymentMethod == "GTCC";
    GrandTotalIsTotal(way);
    if GetExpenseType(d) == Key(kind, gtcc) {
      KeyIsInjective(d.kind, way, kind, gtcc);
    }
    if GrandTotal(way) == Key(kind, gtcc) {
      KeyIsInjective("TOTAL", way, kind, gtcc);
    }
  }

  lemma AddsToItsTotal(d: Document, gtcc: bool)
    requires Proper(d)
    ensures Adds(d, GrandTotal(gtcc)) == if Paid(d, gtcc) then d.cents else 0
  {
    hide Key, EnumName;
    var way := d.paymentMethod == "GTCC";
    GrandTotalIsTotal(gtcc);
    if GetExpenseType(d) == GrandTotal(gtcc) {
      KeyIsInjective(d.kind, way, "TOTAL", gtcc);
    }
  }

  /** Each subtotal is the money of its own documents. */
  lemma {:induction false} SubTotalsAreTheirs(docs: seq<Document>, kind: string, gtcc: bool)
    requires (forall d :: d in docs ==> EnumName(d.kind)) && EnumName(kind) && kind != "TOTAL"
    ensures Booked(docs, Key(kind, gtcc)) == OfKind(docs, kind, gtcc)
  {
    hide Key, EnumName, Adds;
    if docs != [] {
      SubTotalsAreTheirs(docs[..|docs| - 1], kind, gtcc);
      AddsToItsKind(docs[|docs| - 1], kind, gtcc);
    }
  }

  /** Each grand total is the money paid in its way. */
  lemma {:induction false} GrandTotalsAreTheirs(docs: seq<Document>, gtcc: bool)
    requires forall d :: d in docs ==> Proper(d)
    ensures Booked(docs, GrandTotal(gtcc)) == PaidBy(docs, gtcc)
  {
    hide Key, Proper, Adds, GrandTotal;
    if docs != [] {
      GrandTotalsAreTheirs(docs[..|docs| - 1], gtcc);
      AddsToItsTotal(docs[|docs| - 1], gtcc);
    }
  }

  function AllMoney(docs: seq<Document>): int {
    if docs == [] then 0 else AllMoney(docs[..|docs| - 1]) + docs[|docs| - 1].cents
  }

  lemma {:induction false} WaysOfPaymentAddUp(docs: seq<Document>)
    ensures PaidBy(docs, false) + PaidBy(docs, true) == AllMoney(docs)
  {
    if docs != [] {
      WaysOfPaymentAddUp(docs[..|docs| - 1]);
    }
  }

  /** The two grand totals together are the sum of all documents. */
  lemma TotalsConserveMoney(docs: seq<Document>)
    requires forall d :: d in docs ==> Proper(d)
    ensures Booked(docs, GrandTotal(false)) + Booked(docs, GrandTotal(true)) == AllMoney(docs)
  {
    GrandTotalsAreTheirs(docs, false);
    GrandTotalsAreTheirs(docs, true);
    WaysOfPaymentAddUp(docs);
  }

  lemma {:induction false} BookedWithout(docs: seq<Document>, i: nat, key: string)
    requires i < |docs|
    ensures Booked(docs, key) == Booked(docs[..i] + docs[i + 1..], key) + Adds(docs[i], key)
  {
    hide Adds;
    var n := |docs| - 1;
    if i == n {
      assert docs[..i] + docs[i + 1..] == docs[..n];
    } else {
      var shorter := docs[..i] + docs[i + 1..];
      assert shorter[..n - 1] == docs[..n][..i] + docs[..n][i + 1..];
      BookedWithout(docs[..n], i, key);
    }
  }

  lemma WithoutOne(docs: seq<Document>, i: nat)
    requires i < |docs|
    ensures multiset(docs[..i] + docs[i + 1..]) == multiset(docs) - multiset{docs[i]}
  {
    assert docs == docs[..i] + ([docs[i]] + docs[i + 1..]);
  }

  /** The order of the documents does not matter. */
  lemma {:induction false} OrderDoesNotMatter(a: seq<Document>, b: seq<Document>, key: string)
    requires multiset(a) == multiset(b)
    ensures Booked(a, key) == Booked(b, key)
    decreases |a|
  {
    hide Adds;
    if a == [] {
      assert |multiset(b)| == 0;
    } else {
      var n := |a| - 1;
      WithoutOne(a, n);
      assert a[..n] + a[n + 1..] == a[..n];
      assert a[n] in multiset(a);
      var i :| 0 <= i < |b| && b[i] == a[n];
      WithoutOne(b, i);
      BookedWithout(b, i, key);
      OrderDoesNotMatter(a[..n], b[..i] + b[i + 1..], key);
    }
  }

  /** The types that have a row of their own on the worksheet. */
  const ROWS: seq<string> := [
    "CONTRACTED_EXPENSE", "RENTAL_EQUIPMENT", "PACKING_MATERIALS", "WEIGHING_FEES", "GAS", "TOLLS", "OIL", "OTHER"]

  const STORAGE := "STORAGE"

  lemma TypesAreProper(kind: string)
    requires kind in ROWS || kind == STORAGE
    ensures EnumName(kind) && kind != "TOTAL"
  {
    if kind in ROWS[..4] {
      LongNamesAreProper(kind);
    }
  }

  lemma LongNamesAreProper(kind: string)
    requires kind in ROWS[..4]
    ensures EnumName(kind) && |kind| > 5
  {
  }

  /** What the first n rows for one way of payment show. */
  function RowsShown(docs: seq<Document>, gtcc: bool, n: nat): int
    requires n <= |ROWS|
  {
    if n == 0 then 0 else RowsShown(docs, gtcc, n - 1) + Booked(docs, Key(ROWS[n - 1], gtcc))
  }

  /** The money of the documents that have one of the first n rows. */
  function InRows(docs: seq<Document>, gtcc: bool, n: nat): int
    requires n <= |ROWS|
  {
    if n == 0 then 0 else InRows(docs, gtcc, n - 1) + OfKind(docs, ROWS[n - 1], gtcc)
  }

  lemma {:induction false} RowsShowTheirs(docs: seq<Document>, gtcc: bool, n: nat)
    requires (forall d :: d in docs ==> EnumName(d.kind)) && n <= |ROWS|
    ensures RowsShown(docs, gtcc, n) == InRows(docs, gtcc, n)
  {
    hide EnumName, Key;
    if n > 0 {
      RowsShowTheirs(docs, gtcc, n - 1);
      TypesAreProper(ROWS[n - 1]);
      SubTotalsAreTheirs(docs, ROWS[n - 1], gtcc);
    }
  }

  lemma {:induction false} InRowsOneMore(docs: seq<Document>, d: Document, gtcc: bool, n: nat)
    requires n <= |ROWS|
    ensures InRows(docs + [d], gtcc, n) ==
            InRows(docs, gtcc, n) + if d.kind in ROWS[..n] && Paid(d, gtcc) then d.cents else 0
  {
    if n > 0 {
      assert (docs + [d])[..|docs|] == docs;
      InRowsOneMore(docs, d, gtcc, n - 1);
      assert ROWS[..n] == ROWS[..n - 1] + [ROWS[n - 1]];
      assert forall k :: 0 <= k < n - 1 ==> ROWS[k] != ROWS[n - 1];
    }
  }

  lemma {:induction false} AllButStorage(docs: seq<Document>, gtcc: bool)
    requires forall d :: d in docs ==> d.kind in ROWS || d.kind == STORAGE
    ensures PaidBy(docs, gtcc) == InRows(docs, gtcc, |ROWS|) + OfKind(docs, STORAGE, gtcc)
  {
    if docs != [] {
      var n := |docs| - 1;
      AllButStorage(docs[..n], gtcc);
      InRowsOneMore(docs[..n], docs[n], gtcc, |ROWS|);
      assert docs == docs[..n] + [docs[n]];
      assert ROWS[..|ROWS|] == ROWS;
    } else {
      NothingInRows(gtcc, |ROWS|);
    }
  }

  lemma {:induction false} NothingInRows(gtcc: bool, n: nat)
    requires n <= |ROWS|
    ensures InRows([], gtcc, n) == 0
  {
    if n > 0 {
      NothingInRows(gtcc, n - 1);
    }
  }

  /** The total shown exceeds the rows shown by exactly the storage expenses, which have no row. */
  lemma RowsMissOnlyStorage(docs: seq<Document>, gtcc: bool)
    requires forall d :: d in docs ==> d.kind in ROWS || d.kind == STORAGE
    ensures Booked(docs, GrandTotal(gtcc)) - RowsShown(docs, gtcc, |ROWS|) == OfKind(docs, STORAGE, gtcc)
  {
    hide EnumName, Key, GrandTotal, Adds, InRows, RowsShown;
    forall d | d in docs ensures Proper(d) {
      TypesAreProper(d.kind);
    }
    GrandTotalsAreTheirs(docs, gtcc);
    RowsShowTheirs(docs, gtcc, |ROWS|);
    AllButStorage(docs, gtcc);
  }
}
