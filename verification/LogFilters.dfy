/** Reading command line arguments of the log tool as filters: key, operator, value. */
module LogFilters {
  import opened Wrappers

  datatype Op = Equal | NotEqual | AtMost | AtLeast | Less | Greater

  datatype Filter = Filter(key: string, op: Op, value: string)

  /** The outcome for one argument; Panic is an index past its end. */
  datatype Scan = NoFilter | Found(filter: Filter) | Panic

  function Text(op: Op): string {
    match op
    case Equal => "="
    case NotEqual => "!="
    case AtMost => "<="
    case AtLeast => ">="
    case Less => "<"
    case Greater => ">"
  }

  function Print(f: Filter): string {
    f.key + Text(f.op) + f.value
  }

  /** Reading stops at position i: an operator, or an exclamation mark whose successor is missing. */
  predicate Stops(arg: string, i: nat)
    requires i < |arg|
  {
    arg[i] in {'=', '<', '>'} || (arg[i] == '!' && (i + 1 == |arg| || arg[i + 1] == '='))
  }

  function ReadAt(arg: string, i: nat): Scan
    requires i < |arg| && Stops(arg, i)
  {
    var key := arg[..i];
    if arg[i] == '=' then Found(Filter(key, Equal, arg[i + 1..]))
    else if i + 1 == |arg| then Panic
    else if arg[i] == '!' then Found(Filter(key, NotEqual, arg[i + 2..]))
    else if arg[i + 1] == '=' then Found(Filter(key, if arg[i] == '<' then AtMost else AtLeast, arg[i + 2..]))
    else Found(Filter(key, if arg[i] == '<' then Less else Greater, arg[i + 1..]))
  }

  function ScanFrom(arg: string, i: nat): Scan
    decreases |arg| - i
  {
    if i >= |arg| then NoFilter
    else if Stops(arg, i) then ReadAt(arg, i)
    else ScanFrom(arg, i + 1)
  }

  /** The first character always belongs to the key. */
  function Scanned(arg: string): Scan {
    ScanFrom(arg, 1)
  }

  method ScanArgument(arg: string) returns (r: Scan)
    ensures r == Scanned(arg)
  {
    var i := 1;
    while i < |arg|
      invariant 1 <= i && Scanned(arg) == ScanFrom(arg, i)
    {
      if arg[i] == '!' {
        if i + 1 == |arg| {
          return Panic;
        }
        if arg[i + 1] == '=' {
          return Found(Filter(arg[0..i], NotEqual, arg[i + 2..]));
        }
      } else if arg[i] == '=' {
        return Found(Filter(arg[0..i], Equal, arg[i + 1..]));
      } else if arg[i] == '<' || arg[i] == '>' {
        if i + 1 == |arg| {
          return Panic;
        }
        if arg[i + 1] == '=' {
          return Found(Filter(arg[0..i], if arg[i] == '<' then AtMost else AtLeast, arg[i + 2..]));
        } else {
          return Found(Filter(arg[0..i], if arg[i] == '<' then Less else Greater, arg[i + 1..]));
        }
      }
      i := i + 1;
    }
    return NoFilter;
  }

  /** Reading ends at the first position that stops it. */
  lemma {:induction false} ScanStopsFirst(arg: string, i: nat, j: nat)
    requires i <= j <= |arg| && forall k :: i <= k < j ==> !Stops(arg, k)
    ensures ScanFrom(arg, i) == if j < |arg| && Stops(arg, j) then ReadAt(arg, j) else ScanFrom(arg, j)
    decreases j - i
  {
    if i < j {
      ScanStopsFirst(arg, i + 1, j);
    }
  }

  lemma {:induction false} FirstStop(arg: string, i: nat) returns (j: nat)
    requires i <= |arg|
    ensures i <= j <= |arg| && (forall k :: i <= k < j ==> !Stops(arg, k)) && (j < |arg| ==> Stops(arg, j))
    decreases |arg| - i
  {
    if i == |arg| || Stops(arg, i) {
      j := i;
    } else {
      j := FirstStop(arg, i + 1);
    }
  }

  /** A filter read from an argument prints as that argument. */
  lemma ScanSplits(arg: string)
    ensures Scanned(arg).Found? ==> Scanned(arg).filter.key != "" && Print(Scanned(arg).filter) == arg
  {
    if |arg| >= 1 {
      var j := FirstStop(arg, 1);
      ScanStopsFirst(arg, 1, j);
      if j < |arg| {
        assert arg == arg[..j] + [arg[j]] + arg[j + 1..];
        assert j + 1 < |arg| ==> arg == arg[..j] + [arg[j]] + [arg[j + 1]] + arg[j + 2..];
      }
    }
  }

  /** The key holds nothing that reads as an operator, also not together with what follows it. */
  ghost predicate SafeKey(key: string, op: Op) {
    key != "" && forall i :: 1 <= i < |key| ==> !Stops(key + Text(op), i)
  }

  /** The value does not run into the operator. */
  predicate SafeValue(op: Op, value: string) {
    op in {Less, Greater} ==> value != "" && value[0] != '='
  }

  lemma KeyStops(f: Filter, i: nat)
    requires i < |f.key|
    ensures Stops(Print(f), i) <==> Stops(f.key + Text(f.op), i)
  {
    var short, long := f.key + Text(f.op), Print(f);
    assert long[i] == short[i] && long[i + 1] == short[i + 1];
  }

  lemma OpReads(f: Filter)
    ensures Stops(Print(f), |f.key|)
    ensures ReadAt(Print(f), |f.key|) == Found(f) <==> SafeValue(f.op, f.value)
  {
    var arg, i := Print(f), |f.key|;
    assert arg[..i] == f.key;
    assert arg[i..] == Text(f.op) + f.value;
    assert arg[i] == Text(f.op)[0];
    assert arg[i + |Text(f.op)|..] == f.value;
    if |Text(f.op)| == 2 {
      assert arg[i + 1] == Text(f.op)[1];
    } else {
      assert i + 1 < |arg| ==> arg[i + 1] == f.value[0];
    }
  }

  /** Printing a filter and reading it back gives the filter, exactly when the key is safe for the operator
      and the value does not run into it. */
  lemma ScanInvertsPrint(f: Filter)
    ensures Scanned(Print(f)) == Found(f) <==> SafeKey(f.key, f.op) && SafeValue(f.op, f.value)
  {
    var arg := Print(f);
    var j := FirstStop(arg, 1);
    ScanStopsFirst(arg, 1, j);
    OpReads(f);
    if f.key != "" {
      if j < |f.key| {
        KeyStops(f, j);
        assert Scanned(arg).Found? ==> |Scanned(arg).filter.key| == j;
      } else {
        assert j == |f.key|;
        forall i | 1 <= i < |f.key| ensures !Stops(f.key + Text(f.op), i) {
          KeyStops(f, i);
        }
      }
    }
  }

  /** Reading runs past the end exactly when the argument's last character, not its first, is an exclamation
      mark or a comparison and nothing stopped the reading before. */
  lemma PanicIff(arg: string)
    ensures Scanned(arg) == Panic <==>
      |arg| >= 2 && arg[|arg| - 1] in {'!', '<', '>'} && forall i :: 1 <= i < |arg| - 1 ==> !Stops(arg, i)
  {
    if |arg| >= 1 {
      var j := FirstStop(arg, 1);
      ScanStopsFirst(arg, 1, j);
      if j < |arg| {
        assert Stops(arg, j);
        assert ReadAt(arg, j) == Panic <==> j == |arg| - 1 && arg[j] != '=';
      } else {
        assert ScanFrom(arg, j) == NoFilter;
        assert |arg| >= 2 ==> !Stops(arg, |arg| - 1);
      }
    }
  }

  /** A key followed by a bare exclamation mark makes the tool read past the end. */
  lemma PanicExample()
    ensures Scanned("a!") == Panic
  {
    assert Stops("a!", 1);
  }

  /** The filters a list of arguments adds up to. */
  datatype Filters = Filters(equal: map<string, string>, inverse: seq<Filter>, numeric: map<Op, seq<Filter>>)

  function Add(fs: Filters, f: Filter): Filters {
    match f.op
    case Equal => fs.(equal := fs.equal[f.key := f.value])
    case NotEqual => fs.(inverse := fs.inverse + [f])
    case op => fs.(numeric := fs.numeric[op := (if op in fs.numeric then fs.numeric[op] else []) + [f]])
  }

  /** Reading all arguments; none if the reading panics. */
  function Collected(fs: Filters, args: seq<string>): Option<Filters>
    decreases |args|
  {
    if args == [] then Some(fs)
    else
      match Scanned(args[0])
      case Panic => None
      case NoFilter => Collected(fs, args[1..])
      case Found(f) => Collected(Add(fs, f), args[1..])
  }

  method CollectFilters(fs: Filters, args: seq<string>) returns (r: Option<Filters>)
    ensures r == Collected(fs, args)
  {
    var now := fs;
    for k := 0 to |args|
      invariant Collected(fs, args) == Collected(now, args[k..])
    {
      assert args[k..][0] == args[k] && args[k..][1..] == args[k + 1..];
      var scan := ScanArgument(args[k]);
      match scan {
        case Panic => return None;
        case NoFilter =>
        case Found(f) => now := Add(now, f);
      }
    }
    assert args[|args|..] == [];
    return Some(now);
  }

  ghost predicate SafeFilters(fs: seq<Filter>) {
    forall i :: 0 <= i < |fs| ==> SafeKey(fs[i].key, fs[i].op) && SafeValue(fs[i].op, fs[i].value)
  }

  function AddAll(start: Filters, fs: seq<Filter>): Filters
    decreases |fs|
  {
    if fs == [] then start else AddAll(Add(start, fs[0]), fs[1..])
  }

  /** A command line printed from safe filters is collected into exactly those filters. */
  lemma {:induction false} CollectInvertsPrint(start: Filters, fs: seq<Filter>)
    requires SafeFilters(fs)
    ensures Collected(start, seq(|fs|, i requires 0 <= i < |fs| => Print(fs[i]))) == Some(AddAll(start, fs))
    decreases |fs|
  {
    if fs != [] {
      ScanInvertsPrint(fs[0]);
      CollectInvertsPrint(Add(start, fs[0]), fs[1..]);
      assert seq(|fs|, i requires 0 <= i < |fs| => Print(fs[i]))[1..] ==
        seq(|fs[1..]|, i requires 0 <= i < |fs[1..]| => Print(fs[1..][i]));
    }
  }

  /** What each operator is written as. */
  lemma OperatorsRead(key: string, value: string)
    requires key != "" && forall i :: 0 <= i < |key| ==> key[i] !in {'=', '!', '<', '>'}
    ensures Scanned(key + "=" + value) == Found(Filter(key, Equal, value))
    ensures Scanned(key + "!=" + value) == Found(Filter(key, NotEqual, value))
    ensures Scanned(key + "<=" + value) == Found(Filter(key, AtMost, value))
    ensures Scanned(key + ">=" + value) == Found(Filter(key, AtLeast, value))
    ensures value != "" && value[0] != '=' ==> Scanned(key + "<" + value) == Found(Filter(key, Less, value))
    ensures value != "" && value[0] != '=' ==> Scanned(key + ">" + value) == Found(Filter(key, Greater, value))
  {
    hide Scanned;
    forall op: Op ensures SafeKey(key, op) && (SafeValue(op, value) ==>
      Scanned(key + Text(op) + value) == Found(Filter(key, op, value)))
    {
      assert forall i :: 0 <= i < |key| ==> (key + Text(op))[i] == key[i];
      ScanInvertsPrint(Filter(key, op, value));
    }
    assert Text(Equal) == "=" && Text(NotEqual) == "!=" && Text(AtMost) == "<=" && Text(AtLeast) == ">=";
    assert Text(Less) == "<" && Text(Greater) == ">";
  }

  lemma {:induction false} AddAllLast(start: Filters, fs: seq<Filter>, f: Filter)
    ensures AddAll(start, fs + [f]) == Add(AddAll(start, fs), f)
    decreases |fs|
  {
    hide Add;
    if fs == [] {
      assert fs + [f] == [f] && [f][1..] == [];
    } else {
      assert (fs + [f])[1..] == fs[1..] + [f];
      AddAllLast(Add(start, fs[0]), fs[1..], f);
    }
  }

  /** part holds the filters with operator op, in order: ks are their positions. */
  ghost predicate PartOf(fs: seq<Filter>, op: Op, ks: seq<nat>, part: seq<Filter>) {
    && |part| == |ks|
    && (forall a :: 0 <= a < |ks| ==> ks[a] < |fs| && fs[ks[a]].op == op && part[a] == fs[ks[a]])
    && (forall a, b :: 0 <= a < b < |ks| ==> ks[a] < ks[b])
    && (forall k: nat :: k < |fs| && fs[k].op == op ==> k in ks)
  }

  lemma OneMoreFilter(fs: seq<Filter>, f: Filter, op: Op, ks: seq<nat>, part: seq<Filter>)
    requires PartOf(fs, op, ks, part)
    ensures if f.op == op then PartOf(fs + [f], op, ks + [|fs|], part + [f]) else PartOf(fs + [f], op, ks, part)
  {
  }

  /** The filters collected in order for an operator: inverse ones or comparisons. */
  function Group(r: Filters, op: Op): seq<Filter> {
    if op == NotEqual then r.inverse else if op in r.numeric then r.numeric[op] else []
  }

  lemma AddToGroup(r: Filters, f: Filter, op: Op)
    requires op != Equal
    ensures Group(Add(r, f), op) == if f.op == op then Group(r, op) + [f] else Group(r, op)
  {
  }

  /** Inverse filters and comparisons are collected in the order of the command line, each in its own group. */
  lemma {:induction false} GroupsInOrder(start: Filters, fs: seq<Filter>, op: Op) returns (ks: seq<nat>, part: seq<Filter>)
    requires op != Equal
    ensures PartOf(fs, op, ks, part) && Group(AddAll(start, fs), op) == Group(start, op) + part
    decreases |fs|
  {
    hide AddAll, Add, PartOf, Group;
    if fs == [] {
      ks, part := [], [];
      NoFilters(start, op);
    } else {
      var some, f := fs[..|fs| - 1], fs[|fs| - 1];
      assert fs == some + [f];
      var ks0, part0 := GroupsInOrder(start, some, op);
      OneMoreFilter(some, f, op, ks0, part0);
      AddAllLast(start, some, f);
      AddToGroup(AddAll(start, some), f, op);
      if f.op == op {
        AppendOne(Group(start, op), part0, f);
        ks, part := ks0 + [|some|], part0 + [f];
      } else {
        ks, part := ks0, part0;
      }
    }
  }

  lemma NoFilters(start: Filters, op: Op)
    ensures PartOf([], op, [], []) && Group(AddAll(start, []), op) == Group(start, op) + []
  {
  }

  lemma AppendOne(a: seq<Filter>, b: seq<Filter>, f: Filter)
    ensures a + b + [f] == a + (b + [f])
  {
  }

  lemma AddNothing(start: Filters)
    ensures AddAll(start, []) == start
  {
  }

  /** Filter k is the last equality for the key. */
  ghost predicate LastEqual(fs: seq<Filter>, key: string, k: nat) {
    && k < |fs| && fs[k].op == Equal && fs[k].key == key
    && forall j :: k < j < |fs| ==> fs[j].op != Equal || fs[j].key != key
  }

  /** Of several equalities for a key the last one counts. */
  lemma {:induction false} LastEqualWins(start: Filters, fs: seq<Filter>, key: string)
    ensures var r := AddAll(start, fs);
      && (key in r.equal <==> key in start.equal || exists k: nat :: LastEqual(fs, key, k))
      && (forall k: nat :: LastEqual(fs, key, k) ==> key in r.equal && r.equal[key] == fs[k].value)
      && (key in start.equal && !(exists k: nat :: LastEqual(fs, key, k)) ==> r.equal[key] == start.equal[key])
    decreases |fs|
  {
    hide AddAll;
    if fs == [] {
      AddNothing(start);
    } else {
      var some, f := fs[..|fs| - 1], fs[|fs| - 1];
      assert fs == some + [f];
      LastEqualWins(start, some, key);
      AddAllLast(start, some, f);
      LastEqualUnfolds(some, f, key);
      if f.op == Equal && f.key == key {
        assert LastEqual(fs, key, |some|);
      } else if k: nat :| LastEqual(some, key, k) {
        assert LastEqual(fs, key, k);
      }
    }
  }

  lemma LastEqualUnfolds(fs: seq<Filter>, f: Filter, key: string)
    ensures if f.op == Equal && f.key == key then forall k: nat :: LastEqual(fs + [f], key, k) <==> k == |fs|
            else forall k: nat :: LastEqual(fs + [f], key, k) <==> LastEqual(fs, key, k)
  {
    forall k: nat ensures LastEqual(fs + [f], key, k) <==>
      if f.op == Equal && f.key == key then k == |fs| else LastEqual(fs, key, k)
    {
      if k < |fs| {
        assert (fs + [f])[|fs|] == f;
        assert forall j :: k < j < |fs| ==> (fs + [f])[j] == fs[j];
      }
    }
  }
}
