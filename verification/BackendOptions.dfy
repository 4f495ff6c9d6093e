/** The guided decoding backend: a name, and options packed into the same string as "name:option,option". */
module BackendOptions {

  datatype Option<T> = None | Some(value: T)

  // ----- splitting and joining strings

  /** Python's s.split(sep): the pieces between the separators, at least one. */
  function Split(s: string, sep: char): (r: seq<string>)
    ensures r != []
  {
    if s == "" then [""]
    else
      var rest := Split(s[1..], sep);
      if s[0] == sep then [""] + rest else [[s[0]] + rest[0]] + rest[1..]
  }

  function Join(parts: seq<string>, sep: char): string {
    if parts == [] then "" else if |parts| == 1 then parts[0] else parts[0] + [sep] + Join(parts[1..], sep)
  }

  predicate NoneHas(parts: seq<string>, c: char) { forall i :: 0 <= i < |parts| ==> c !in parts[i] }

  /** No piece contains the separator, nor a character that the whole does not have. */
  lemma {:induction false} PiecesOfSplit(s: string, sep: char, c: char)
    requires c == sep || c !in s
    ensures NoneHas(Split(s, sep), c)
    ensures |Split(s, sep)| == 1 <==> sep !in s
    ensures sep !in s ==> Split(s, sep) == [s]
  {
    if s != "" {
      PiecesOfSplit(s[1..], sep, c);
      assert s == [s[0]] + s[1..];
    }
  }

  lemma {:induction false} JoinedSplit(s: string, sep: char)
    ensures Join(Split(s, sep), sep) == s
  {
    if s != "" {
      JoinedSplit(s[1..], sep);
      var rest := Split(s[1..], sep);
      assert ([""] + rest)[1..] == rest;
      assert ([[s[0]] + rest[0]] + rest[1..])[1..] == rest[1..];
    }
  }

  /** A separator splits the pieces before it from the pieces after it. */
  lemma {:induction false} SplitAt(left: string, sep: char, right: string)
    ensures Split(left + [sep] + right, sep) == Split(left, sep) + Split(right, sep)
  {
    var s := left + [sep] + right;
    if left == "" {
      assert s[1..] == right;
    } else {
      assert s[1..] == left[1..] + [sep] + right;
      SplitAt(left[1..], sep, right);
      var l, r := Split(left[1..], sep), Split(right, sep);
      assert ([""] + l) + r == [""] + (l + r);
      assert ([[s[0]] + l[0]] + l[1..]) + r == [[s[0]] + l[0]] + (l + r)[1..];
    }
  }

  /** The pieces of all the parts. */
  function Splits(parts: seq<string>, sep: char): seq<string> {
    if parts == [] then [] else Split(parts[0], sep) + Splits(parts[1..], sep)
  }

  lemma {:induction false} SplitJoin(parts: seq<string>, sep: char)
    requires parts != []
    ensures Split(Join(parts, sep), sep) == Splits(parts, sep)
  {
    if |parts| == 1 {
      assert Splits(parts[1..], sep) == [];
    } else {
      SplitAt(parts[0], sep, Join(parts[1..], sep));
      SplitJoin(parts[1..], sep);
    }
  }

  lemma {:induction false} SplitsOfConcat(a: seq<string>, b: seq<string>, sep: char)
    ensures Splits(a + b, sep) == Splits(a, sep) + Splits(b, sep)
  {
    if a == [] {
      assert a + b == b;
    } else {
      hide Splits, Split;
      SplitsFirst(a, a[0], a[1..], sep);
      SplitsFirst(a + b, a[0], a[1..] + b, sep);
      SplitsOfConcat(a[1..], b, sep);
      ConcatAssociative(Split(a[0], sep), Splits(a[1..], sep), Splits(b, sep));
    }
  }

  lemma SplitsFirst(parts: seq<string>, first: string, rest: seq<string>, sep: char)
    requires parts == [first] + rest
    ensures Splits(parts, sep) == Split(first, sep) + Splits(rest, sep)
  {
    assert parts[1..] == rest;
  }

  lemma ConcatAssociative(x: seq<string>, y: seq<string>, z: seq<string>)
    ensures x + (y + z) == (x + y) + z
  {
  }

  lemma {:induction false} SplitsOfPieces(parts: seq<string>, sep: char)
    requires NoneHas(parts, sep)
    ensures Splits(parts, sep) == parts
  {
    if parts != [] {
      PiecesOfSplit(parts[0], sep, sep);
      SplitsOfPieces(parts[1..], sep);
      assert parts == [parts[0]] + parts[1..];
    }
  }

  /** Pieces survive joining and splitting exactly when there are some and none has the separator. */
  lemma SplitJoined(parts: seq<string>, sep: char)
    ensures Split(Join(parts, sep), sep) == parts <==> parts != [] && NoneHas(parts, sep)
  {
    PiecesOfSplit(Join(parts, sep), sep, sep);
    if parts != [] && NoneHas(parts, sep) {
      SplitJoin(parts, sep);
      SplitsOfPieces(parts, sep);
    }
  }

  lemma {:induction false} JoinOfConcat(a: seq<string>, b: seq<string>, sep: char)
    requires a != [] && b != []
    ensures Join(a + b, sep) == Join(a, sep) + [sep] + Join(b, sep)
  {
    if |a| == 1 {
      assert (a + b)[1..] == b;
    } else {
      JoinOfConcat(a[1..], b, sep);
      assert (a + b)[1..] == a[1..] + b;
      assert Join(a + b, sep) == a[0] + [sep] + (Join(a[1..], sep) + [sep] + Join(b, sep));
    }
  }

  /** A separator that a part contains cuts the joined text there. */
  lemma CutInPart(before: seq<string>, head: string, cut: char, tail: string, after: seq<string>, sep: char)
    returns (rest: string)
    ensures Join(before + [head + [cut] + tail] + after, sep) == Join(before + [head], sep) + [cut] + rest
  {
    var part := head + [cut] + tail;
    rest := if after == [] then tail else tail + [sep] + Join(after, sep);
    assert after == [] ==> before + [part] + after == before + [part];
    if after != [] { JoinOfConcat(before + [part], after, sep); }
    if before == [] {
      assert before + [part] == [part] && before + [head] == [head];
    } else {
      JoinOfConcat(before, [part], sep);
      JoinOfConcat(before, [head], sep);
    }
    var start := if before == [] then "" else Join(before, sep) + [sep];
    assert Join(before + [part], sep) == start + part && Join(before + [head], sep) == start + head;
    assert start + part == start + head + [cut] + tail;
  }

  lemma {:induction false} JoinedLacks(parts: seq<string>, sep: char, c: char)
    requires c != sep
    ensures c !in Join(parts, sep) <==> NoneHas(parts, c)
  {
    if |parts| > 1 {
      JoinedLacks(parts[1..], sep, c);
      assert parts == [parts[0]] + parts[1..];
    }
  }

  // ----- sorted lists of strings

  /** Python's order on strings. */
  predicate Less(a: string, b: string) {
    b != "" && (a == "" || a[0] < b[0] || (a[0] == b[0] && Less(a[1..], b[1..])))
  }

  lemma {:induction false} LessIsTotal(a: string, b: string)
    ensures a == b || Less(a, b) || Less(b, a)
    ensures !(Less(a, b) && Less(b, a)) && !Less(a, a)
  {
    if a != "" && b != "" {
      LessIsTotal(a[1..], b[1..]);
      assert a == [a[0]] + a[1..] && b == [b[0]] + b[1..];
    }
    if a != "" { LessIsTotal(a[1..], a[1..]); }
  }

  lemma {:induction false} LessIsTransitive(a: string, b: string, c: string)
    requires Less(a, b) && Less(b, c)
    ensures Less(a, c)
  {
    if a != "" && a[0] == b[0] == c[0] { LessIsTransitive(a[1..], b[1..], c[1..]); }
  }

  /** The first n characters are the same, and then a ends or its next character is the smaller one. */
  predicate LessAt(a: string, b: string, n: nat) {
    n <= |a| && n < |b| && a[..n] == b[..n] && (n == |a| || a[n] < b[n])
  }

  lemma {:induction false} LessMeans(a: string, b: string)
    ensures Less(a, b) <==> exists n: nat :: LessAt(a, b, n)
  {
    if a != "" && b != "" && a[0] == b[0] {
      LessMeans(a[1..], b[1..]);
      if n: nat :| LessAt(a, b, n) { LessAtNext(a, b, n - 1); }
      if n: nat :| LessAt(a[1..], b[1..], n) { LessAtNext(a, b, n); }
    } else if Less(a, b) {
      assert a[..0] == b[..0] && LessAt(a, b, 0);
    } else {
      LessAtFirst(a, b);
    }
  }

  lemma LessAtFirst(a: string, b: string)
    ensures forall n: nat :: LessAt(a, b, n) && n > 0 ==> a[0] == b[0]
  {
    forall n: nat | LessAt(a, b, n) && n > 0
      ensures a[0] == b[0]
    {
      assert a[0] == a[..n][0] && b[0] == b[..n][0];
    }
  }

  lemma LessAtNext(a: string, b: string, n: nat)
    requires a != "" && b != "" && a[0] == b[0]
    ensures LessAt(a, b, n + 1) <==> LessAt(a[1..], b[1..], n)
  {
    if n + 1 <= |a| && n + 1 < |b| {
      assert a[..n + 1] == [a[0]] + a[1..][..n] && b[..n + 1] == [b[0]] + b[1..][..n];
      assert a[..n + 1][1..] == a[1..][..n] && b[..n + 1][1..] == b[1..][..n];
    }
  }

  predicate Sorted(s: seq<string>) {
    forall i, j :: 0 <= i < j < |s| ==> Less(s[i], s[j])
  }

  function Elements(s: seq<string>): set<string> { set x | x in s }

  function Insert(s: seq<string>, x: string): (r: seq<string>) {
    if s == [] || Less(x, s[0]) then [x] + s else [s[0]] + Insert(s[1..], x)
  }

  lemma {:induction false} InsertSorts(s: seq<string>, x: string)
    requires Sorted(s) && x !in s
    ensures Sorted(Insert(s, x)) && Elements(Insert(s, x)) == Elements(s) + {x}
  {
    if s == [] {
    } else if Less(x, s[0]) {
      forall i | 0 < i < |s|
        ensures Less(x, s[i])
      {
        LessIsTransitive(x, s[0], s[i]);
      }
    } else {
      var rest := Insert(s[1..], x);
      InsertSorts(s[1..], x);
      LessIsTotal(x, s[0]);
      forall i | 0 <= i < |rest|
        ensures Less(s[0], rest[i])
      {
        assert rest[i] in Elements(rest);
      }
      assert s == [s[0]] + s[1..];
    }
  }

  /** The strictly ascending list of a set's elements. */
  ghost function SortedList(s: set<string>): (r: seq<string>)
    ensures Sorted(r) && Elements(r) == s
  {
    if s == {} then [] else
      var x :| x in s;
      var rest := SortedList(s - {x});
      assert x !in Elements(rest);
      InsertSorts(rest, x);
      Insert(rest, x)
  }

  lemma TailElements(s: seq<string>)
    requires Sorted(s) && s != []
    ensures s == [s[0]] + s[1..] && Elements(s[1..]) == Elements(s) - {s[0]}
  {
    LessIsTotal(s[0], s[0]);
    assert s == [s[0]] + s[1..];
  }

  lemma {:induction false} SortedIsUnique(a: seq<string>, b: seq<string>)
    requires Sorted(a) && Sorted(b) && Elements(a) == Elements(b)
    ensures a == b
  {
    assert a != [] ==> a[0] in Elements(a);
    assert b != [] ==> b[0] in Elements(b);
    if a != [] && b != [] {
      assert a[0] in Elements(b) && b[0] in Elements(a);
      LessIsTotal(a[0], b[0]);
      assert a[0] == b[0];
      LessIsTotal(a[0], a[0]);
      TailElements(a);
      TailElements(b);
      SortedIsUnique(a[1..], b[1..]);
    }
  }

  /** sorted(s) for a set, whatever order its elements come in. */
  method SortStrings(s: set<string>) returns (r: seq<string>)
    ensures r == SortedList(s)
  {
    r := [];
    var rest := s;
    while rest != {}
      invariant Sorted(r) && rest !! Elements(r) && rest + Elements(r) == s
      decreases |rest|
    {
      var x :| x in rest;
      InsertSorts(r, x);
      r, rest := Insert(r, x), rest - {x};
    }
    SortedIsUnique(r, SortedList(s));
  }

  // ----- the backend string

  function OrEmpty(b: Option<string>): string { if b.None? then "" else b.value }

  function Name(b: Option<string>): string { Split(OrEmpty(b), ':')[0] }

  function Options(b: Option<string>): (r: seq<string>) {
    var s := OrEmpty(b);
    if s == "" || ':' !in s then [] else
      PiecesOfSplit(s, ':', ':');
      Split(Split(s, ':')[1], ',')
  }

  /** The name is the text before the first colon. */
  lemma NameMeans(b: Option<string>)
    ensures ':' !in Name(b)
    ensures ':' !in OrEmpty(b) ==> Name(b) == OrEmpty(b)
    ensures ':' in OrEmpty(b) ==> exists rest :: OrEmpty(b) == Name(b) + ":" + rest
  {
    var s := OrEmpty(b);
    PiecesOfSplit(s, ':', ':');
    if ':' in s {
      JoinedSplit(s, ':');
      assert s == Split(s, ':')[0] + ":" + Join(Split(s, ':')[1..], ':');
    }
  }

  /** The options are the pieces between the commas of the text from the first colon up to the next. */
  lemma OptionsMean(b: Option<string>, name: string, list: string)
    requires ':' !in name && ':' !in list
    ensures b.None? || ':' !in b.value ==> Options(b) == []
    ensures b == Some(name + ":" + list) ==> Options(b) == Split(list, ',') && Join(Options(b), ',') == list
    ensures forall rest: string :: b == Some(name + ":" + list + ":" + rest) ==>
      Options(b) == Split(list, ',') && Join(Options(b), ',') == list
    ensures forall x :: x in Options(b) ==> ',' !in x
  {
    OptionsArePlain(b);
    JoinedSplit(list, ',');
    PiecesOfSplit(name, ':', ':');
    PiecesOfSplit(list, ':', ':');
    SplitAt(name, ':', list);
    forall rest: string | b == Some(name + ":" + list + ":" + rest)
      ensures Options(b) == Split(list, ',')
    {
      assert name + ":" + list + ":" + rest == name + [':'] + (list + [':'] + rest);
      SplitAt(name, ':', list + [':'] + rest);
      SplitAt(list, ':', rest);
    }
  }

  predicate HasNoFallback(b: Option<string>) { "no-fallback" in Options(b) }

  predicate Plain(option: string) { ':' !in option && ',' !in option }

  ghost function Canonical(name: string, options: set<string>): string { name + ":" + Join(SortedList(options), ',') }

  lemma FoundAt(options: seq<string>, option: string)
    ensures option in options <==> exists i :: 0 <= i < |options| && options[i] == option
  {
  }

  class GuidedDecodingParams {
    var backend: Option<string>

    constructor (backend: Option<string>)
      ensures this.backend == backend
    {
      this.backend := backend;
    }

    function BackendName(): string
      reads this
    {
      Name(backend)
    }

    function BackendOptions(): seq<string>
      reads this
    {
      Options(backend)
    }

    /** All three cases write the canonical form of the options so far and the new one. The name stays; the
        options parse back to exactly that sorted list unless the new one has a colon or a comma in it. */
    method AddOption(optName: string)
      modifies this
      ensures backend == Some(Canonical(old(BackendName()), Elements(old(BackendOptions())) + {optName}))
      ensures BackendName() == old(BackendName())
      ensures BackendOptions() == OptionsAfter(Elements(old(BackendOptions())), optName)
      ensures BackendOptions() == SortedList(Elements(old(BackendOptions())) + {optName}) <==> Plain(optName)
    {
      ghost var before := backend;
      if OrEmpty(before) == "" || ':' !in OrEmpty(before) { SingleOption(before, optName); }
      if backend.None? || backend.value == "" {
        backend := Some(":" + optName);
        assert "" + ":" + optName == ":" + optName;
      } else if ':' !in backend.value {
        backend := Some(backend.value + ":" + optName);
      } else {
        var options := Elements(BackendOptions());
        options := options + {optName};
        var sorted := SortStrings(options);
        backend := Some(BackendName() + ":" + Join(sorted, ','));
      }
      CanonicalParsesBack(before, optName);
      OptionsOfAdded(before, optName);
    }

    predicate NoFallback(): (r: bool)
      reads this
      ensures r <==> exists i :: 0 <= i < |BackendOptions()| && BackendOptions()[i] == "no-fallback"
    {
      FoundAt(BackendOptions(), "no-fallback");
      HasNoFallback(backend)
    }
  }

  /** Appending the first option is the canonical form too. */
  lemma SingleOption(b: Option<string>, option: string)
    requires OrEmpty(b) == "" || ':' !in OrEmpty(b)
    ensures OrEmpty(b) + ":" + option == Canonical(Name(b), Elements(Options(b)) + {option})
  {
    PiecesOfSplit(OrEmpty(b), ':', ':');
    assert Elements(Options(b)) + {option} == Elements([option]);
    SortedIsUnique([option], SortedList({option}));
  }

  lemma NameLacksColon(b: Option<string>)
    ensures ':' !in Name(b)
  {
    PiecesOfSplit(OrEmpty(b), ':', ':');
  }

  lemma OptionsArePlain(b: Option<string>)
    ensures forall x :: x in Options(b) ==> Plain(x)
  {
    var s := OrEmpty(b);
    if s != "" && ':' in s {
      PiecesOfSplit(s, ':', ':');
      PiecesOfSplit(Split(s, ':')[1], ',', ':');
      PiecesOfSplit(Split(s, ':')[1], ',', ',');
    }
  }

  /** The canonical form parses back exactly when every option is plain. */
  lemma ParseCanonical(name: string, options: set<string>)
    requires ':' !in name && options != {}
    ensures Name(Some(Canonical(name, options))) == name
    ensures Options(Some(Canonical(name, options))) == SortedList(options) <==> forall x :: x in options ==> Plain(x)
  {
    var parts := SortedList(options);
    var list := Join(parts, ',');
    PiecesOfSplit(name, ':', ':');
    SplitAt(name, ':', list);
    assert name + [':'] + list == Canonical(name, options);
    if forall x :: x in options ==> Plain(x) {
      forall i | 0 <= i < |parts|
        ensures Plain(parts[i])
      {
        assert parts[i] in Elements(parts);
      }
      JoinedLacks(parts, ',', ':');
      PiecesOfSplit(list, ':', ':');
      SplitJoined(parts, ',');
    } else {
      var x :| x in options && !Plain(x);
      assert x in Elements(parts);
      OptionsArePlain(Some(Canonical(name, options)));
    }
  }

  function Below(options: set<string>, x: string): set<string> { set y | y in options && Less(y, x) }

  function Above(options: set<string>, x: string): set<string> { set y | y in options && Less(x, y) }

  /** What can be read back after adding any option. A comma breaks the new option into pieces; a colon cuts
      it off and loses everything that sorts after it. */
  ghost function OptionsAfter(options: set<string>, option: string): seq<string> {
    SortedList(Below(options, option)) + Split(Name(Some(option)), ',')
    + if ':' in option then [] else SortedList(Above(options, option))
  }

  lemma SortedConcat(a: seq<string>, x: string, c: seq<string>)
    requires Sorted(a) && Sorted(c)
    requires (forall i :: 0 <= i < |a| ==> Less(a[i], x)) && forall k :: 0 <= k < |c| ==> Less(x, c[k])
    ensures Sorted(a + [x] + c)
  {
    forall i, k | 0 <= i < |a| && 0 <= k < |c|
      ensures Less(a[i], c[k])
    {
      LessIsTransitive(a[i], x, c[k]);
    }
  }

  lemma SortedAround(options: set<string>, x: string)
    ensures SortedList(options + {x}) == SortedList(Below(options, x)) + [x] + SortedList(Above(options, x))
  {
    var a, c := SortedList(Below(options, x)), SortedList(Above(options, x));
    var r := a + [x] + c;
    forall i | 0 <= i < |a|
      ensures Less(a[i], x)
    {
      assert a[i] in Elements(a);
    }
    forall k | 0 <= k < |c|
      ensures Less(x, c[k])
    {
      assert c[k] in Elements(c);
    }
    SortedConcat(a, x, c);
    hide Less, SortedList;
    forall y
      ensures y in Elements(r) <==> y in options + {x}
    {
      LessIsTotal(y, x);
      assert y in r <==> y in Elements(a) || y == x || y in Elements(c);
    }
    SortedIsUnique(SortedList(options + {x}), r);
  }

  lemma ListLacks(options: set<string>, c: char)
    requires forall x :: x in options ==> c !in x
    ensures NoneHas(SortedList(options), c)
  {
    forall i | 0 <= i < |SortedList(options)|
      ensures c !in SortedList(options)[i]
    {
      assert SortedList(options)[i] in Elements(SortedList(options));
    }
  }

  /** Which options can be read back after adding any option, plain or not. */
  lemma OptionsOfAdded(b: Option<string>, option: string)
    ensures Options(Some(Canonical(Name(b), Elements(Options(b)) + {option})))
      == OptionsAfter(Elements(Options(b)), option)
  {
    hide Less, Join, Split, Splits;
    var had := Elements(Options(b));
    var a, c := SortedList(Below(had, option)), SortedList(Above(had, option));
    var head := Name(Some(option));
    OptionsArePlain(b);
    ListLacks(Below(had, option), ':');
    ListLacks(Below(had, option), ',');
    ListLacks(Above(had, option), ',');
    SortedAround(had, option);
    SplitsOfPieces(a, ',');
    SplitsOfConcat(a, [head], ',');
    OnePart(head);
    if ':' in option {
      ListBeforeColon(a, option, c);
      TextAfterName(b, Join(a + [option] + c, ','), Join(a + [head], ','));
      SplitJoin(a + [head], ',');
    } else {
      PiecesOfSplit(option, ':', ':');
      ListLacks(Above(had, option), ':');
      JoinedLacks(a + [option] + c, ',', ':');
      PiecesOfSplit(Join(a + [option] + c, ','), ':', ':');
      TextAfterName(b, Join(a + [option] + c, ','), Join(a + [option] + c, ','));
      SplitJoin(a + [option] + c, ',');
      SplitsOfConcat(a + [option], c, ',');
      SplitsOfPieces(c, ',');
    }
  }

  lemma OnePart(part: string)
    ensures Splits([part], ',') == Split(part, ',')
  {
    assert Splits([part][1..], ',') == [];
  }

  lemma ListBeforeColon(a: seq<string>, option: string, c: seq<string>)
    requires ':' in option && NoneHas(a, ':')
    ensures Split(Join(a + [option] + c, ','), ':')[0] == Join(a + [Name(Some(option))], ',')
  {
    var pieces := Split(option, ':');
    var head, tail := pieces[0], Join(pieces[1..], ':');
    PiecesOfSplit(option, ':', ':');
    JoinedSplit(option, ':');
    assert option == head + [':'] + tail;
    var rest := CutInPart(a, head, ':', tail, c, ',');
    JoinedLacks(a + [head], ',', ':');
    var list := Join(a + [head], ',');
    PiecesOfSplit(list, ':', ':');
    SplitAt(list, ':', rest);
  }

  /** The options are the pieces of the text up to the next colon. */
  lemma TextAfterName(b: Option<string>, list: string, text: string)
    requires Split(list, ':')[0] == text
    ensures Options(Some(Name(b) + ":" + list)) == Split(text, ',')
  {
    NameLacksColon(b);
    PiecesOfSplit(Name(b), ':', ':');
    SplitAt(Name(b), ':', list);
    var s := Name(b) + [':'] + list;
    assert s == Name(b) + ":" + list && s[|Name(b)|] == ':';
  }

  /** An earlier option is lost exactly when the new one has a colon, does not sort after it, and does not
      repeat it before the colon. */
  lemma Survives(b: Option<string>, option: string, earlier: string)
    requires earlier in Options(b)
    ensures earlier in Options(Some(Canonical(Name(b), Elements(Options(b)) + {option}))) <==>
      ':' !in option || Less(earlier, option) || earlier in Split(Name(Some(option)), ',')
  {
    hide Less, Join, Split, Options;
    var had := Elements(Options(b));
    OptionsOfAdded(b, option);
    LessIsTotal(earlier, option);
    assert earlier in Elements(SortedList(Below(had, option))) <==> Less(earlier, option);
    assert earlier in Elements(SortedList(Above(had, option))) <==> Less(option, earlier);
    if ':' !in option && earlier == option {
      OptionsArePlain(b);
      PiecesOfSplit(option, ':', ':');
      PiecesOfSplit(option, ',', ',');
    }
  }

  lemma CanonicalParsesBack(b: Option<string>, option: string)
    ensures var r := Some(Canonical(Name(b), Elements(Options(b)) + {option}));
            && Name(r) == Name(b)
            && (Options(r) == SortedList(Elements(Options(b)) + {option}) <==> Plain(option))
  {
    NameLacksColon(b);
    OptionsArePlain(b);
    ParseCanonical(Name(b), Elements(Options(b)) + {option});
  }

  // ----- runs of add_option

  /** The backend after one call, as AddOption states it. */
  ghost function Added(b: Option<string>, option: string): Option<string> {
    Some(Canonical(Name(b), Elements(Options(b)) + {option}))
  }

  ghost function AddedAll(b: Option<string>, options: seq<string>): Option<string> {
    if options == [] then b else Added(AddedAll(b, options[..|options| - 1]), options[|options| - 1])
  }

  /** r has the name of b and, in canonical form, the options of b together with the given ones. */
  ghost predicate HasAdded(b: Option<string>, options: set<string>, r: Option<string>) {
    var all := Elements(Options(b)) + options;
    r == Some(Canonical(Name(b), all)) && Name(r) == Name(b) && Options(r) == SortedList(all)
  }

  lemma OneMoreOption(b: Option<string>, options: set<string>, r: Option<string>, option: string)
    requires Plain(option)
    requires if options == {} then r == b else HasAdded(b, options, r)
    ensures HasAdded(b, options + {option}, Added(r, option))
  {
    hide Options, Canonical, Name;
    CanonicalParsesBack(r, option);
    assert Elements(Options(r)) + {option} == Elements(Options(b)) + (options + {option});
  }

  ghost predicate AllPlain(options: seq<string>) { forall i :: 0 <= i < |options| ==> Plain(options[i]) }

  /** Whatever the backend was, calls with plain options leave its name and the sorted set of all options. */
  lemma {:induction false} PlainForm(b: Option<string>, options: seq<string>)
    requires options != [] && AllPlain(options)
    ensures HasAdded(b, Elements(options), AddedAll(b, options))
  {
    hide HasAdded, Options, Added;
    var n := |options| - 1;
    var before := options[..n];
    if n > 0 {
      PlainForm(b, before);
      assert before[0] in Elements(before);
    }
    assert options == before + [options[n]];
    assert Elements(options) == Elements(before) + {options[n]};
    OneMoreOption(b, Elements(before), AddedAll(b, before), options[n]);
  }

  /** Any number of calls leave the name, and the sorted set of all options exactly when every one is plain. */
  lemma CanonicalForm(b: Option<string>, options: seq<string>)
    requires options != []
    ensures HasAdded(b, Elements(options), AddedAll(b, options)) <==> AllPlain(options)
    ensures Name(AddedAll(b, options)) == Name(b)
  {
    hide Options, Canonical, Name, AddedAll, Plain;
    NameStays(b, options);
    if AllPlain(options) {
      PlainForm(b, options);
    }
    var r := AddedAll(b, options);
    if HasAdded(b, Elements(options), r) {
      OptionsArePlain(r);
      forall i | 0 <= i < |options|
        ensures Plain(options[i])
      {
        assert options[i] in Elements(Options(r));
      }
    }
  }

  lemma {:induction false} NameStays(b: Option<string>, options: seq<string>)
    ensures Name(AddedAll(b, options)) == Name(b)
  {
    hide Options, Canonical, Name;
    if options != [] {
      NameStays(b, options[..|options| - 1]);
      CanonicalParsesBack(AddedAll(b, options[..|options| - 1]), options[|options| - 1]);
    }
  }

  /** A call with this option does not lose x. */
  ghost predicate Keeps(option: string, x: string) {
    ':' !in option || Less(x, option) || Gives(option, x)
  }

  /** After a call with this option x can be read back. */
  ghost predicate Gives(option: string, x: string) { x in Split(Name(Some(option)), ',') }

  /** One call: x is there if it was and is kept, or if it is given. */
  lemma OptionsOverCall(b: Option<string>, option: string, x: string)
    ensures x in Options(Added(b, option)) <==> (x in Options(b) && Keeps(option, x)) || Gives(option, x)
  {
    hide Less, Join, Split, Options, Name;
    var had := Elements(Options(b));
    OptionsOfAdded(b, option);
    if x in Options(b) { Survives(b, option, x); }
    assert x in SortedList(Below(had, option)) <==> x in Elements(SortedList(Below(had, option)));
    assert x in SortedList(Above(had, option)) <==> x in Elements(SortedList(Above(had, option)));
  }

  ghost predicate KeptBy(options: seq<string>, from: nat, x: string) {
    forall i :: from <= i < |options| ==> Keeps(options[i], x)
  }

  /** x is there when the calls begin and every call keeps it, or a call gives it and all from there on keep it. */
  ghost predicate Lasts(b: Option<string>, options: seq<string>, x: string) {
    || (x in Options(b) && KeptBy(options, 0, x))
    || exists i :: 0 <= i < |options| && Gives(options[i], x) && KeptBy(options, i, x)
  }

  lemma LastsOneMore(b: Option<string>, options: seq<string>, option: string, x: string)
    ensures Lasts(b, options + [option], x) <==> (Lasts(b, options, x) && Keeps(option, x)) || Gives(option, x)
  {
    hide Keeps, Gives, Options;
    KeepsWhatItGives(option, x);
    var more := options + [option];
    forall i: nat | i <= |options|
      ensures KeptBy(more, i, x) <==> KeptBy(options, i, x) && Keeps(option, x)
    {
      KeptByOneMore(options, option, i, x);
    }
    if Gives(option, x) {
      assert Gives(more[|options|], x) && KeptBy(more, |options|, x);
    }
    if Lasts(b, options, x) && Keeps(option, x) && !(x in Options(b) && KeptBy(options, 0, x)) {
      var i :| 0 <= i < |options| && Gives(options[i], x) && KeptBy(options, i, x);
      assert Gives(more[i], x) && KeptBy(more, i, x);
    }
  }

  lemma KeptByOneMore(options: seq<string>, option: string, i: nat, x: string)
    requires i <= |options|
    ensures KeptBy(options + [option], i, x) <==> KeptBy(options, i, x) && Keeps(option, x)
  {
    hide Keeps;
    var more := options + [option];
    assert more[|options|] == option;
    assert forall k :: 0 <= k < |options| ==> more[k] == options[k];
  }

  lemma KeepsWhatItGives(option: string, x: string)
    ensures Gives(option, x) ==> Keeps(option, x)
  {
  }

  lemma NoCalls(b: Option<string>, x: string)
    ensures AddedAll(b, []) == b
    ensures Lasts(b, [], x) <==> x in Options(b)
  {
    hide Options;
    assert KeptBy([], 0, x);
  }

  /** Exactly which options can be read back after any calls, in any order, plain or not. */
  lemma {:induction false} OptionsOverRuns(b: Option<string>, options: seq<string>, x: string)
    ensures x in Options(AddedAll(b, options)) <==> Lasts(b, options, x)
  {
    hide Options, Lasts, AddedAll;
    if options == [] {
      NoCalls(b, x);
    } else {
      var n := |options| - 1;
      OptionsOverRuns(b, options[..n], x);
      OptionsOverOneMore(b, options[..n], options[n], x);
      assert options == options[..n] + [options[n]];
    }
  }

  lemma OptionsOverOneMore(b: Option<string>, options: seq<string>, option: string, x: string)
    requires x in Options(AddedAll(b, options)) <==> Lasts(b, options, x)
    ensures x in Options(AddedAll(b, options + [option])) <==> Lasts(b, options + [option], x)
  {
    hide Options, Lasts, Added, AddedAll, Keeps, Gives;
    AddedOneMore(b, options, option);
    OptionsOverCall(AddedAll(b, options), option, x);
    LastsOneMore(b, options, option, x);
  }

  lemma AddedOneMore(b: Option<string>, options: seq<string>, option: string)
    ensures AddedAll(b, options + [option]) == Added(AddedAll(b, options), option)
  {
    hide Added;
    assert (options + [option])[..|options|] == options;
  }

  /** Whether falling back is ruled out after any calls; with plain options, exactly when it was before or a
      call ruled it out. */
  lemma NoFallbackOverRuns(b: Option<string>, options: seq<string>)
    ensures HasNoFallback(AddedAll(b, options)) <==> Lasts(b, options, "no-fallback")
    ensures AllPlain(options) ==>
      (HasNoFallback(AddedAll(b, options)) <==> HasNoFallback(b) || "no-fallback" in options)
  {
    hide Split, AddedAll, Canonical, Lasts, Options;
    OptionsOverRuns(b, options, "no-fallback");
    if AllPlain(options) && options != [] {
      PlainForm(b, options);
      var all := Elements(Options(b)) + Elements(options);
      assert "no-fallback" in SortedList(all) <==> "no-fallback" in Elements(SortedList(all));
    } else if options == [] {
      NoCalls(b, "no-fallback");
    }
  }

  /** A later option with a colon takes it away if it sorts before it. */
  lemma NoFallbackLost(b: Option<string>)
    ensures !HasNoFallback(Added(b, "a:b"))
  {
    hide Options;
    OptionsOverCall(b, "a:b", "no-fallback");
    PiecesOfSplit("a", ':', ':');
    SplitAt("a", ':', "b");
    assert "a" + [':'] + "b" == "a:b";
    PiecesOfSplit("a", ',', ',');
  }

  /** With plain options neither the order of the calls nor repeated ones show. */
  lemma OrderDoesNotMatter(b: Option<string>, options: seq<string>, options': seq<string>)
    requires options != [] && AllPlain(options) && Elements(options) == Elements(options')
    ensures AddedAll(b, options) == AddedAll(b, options')
  {
    assert options[0] in Elements(options');
    assert forall i :: 0 <= i < |options'| ==> options'[i] in Elements(options);
    PlainForm(b, options);
    PlainForm(b, options');
  }

  /** With an option that has a colon, order shows. */
  lemma OrderShows(b: Option<string>)
    ensures HasNoFallback(AddedAll(b, ["a:b", "no-fallback"]))
    ensures !HasNoFallback(AddedAll(b, ["no-fallback", "a:b"]))
  {
    hide Options, Split, Canonical, Added;
    var first, second := ["a:b", "no-fallback"], ["no-fallback", "a:b"];
    assert first[..1] == ["a:b"] && second[..1] == ["no-fallback"];
    GivesItself("no-fallback");
    OptionsOverCall(AddedAll(b, first[..1]), "no-fallback", "no-fallback");
    NoFallbackLost(AddedAll(b, second[..1]));
  }

  lemma GivesItself(option: string)
    requires Plain(option)
    ensures Gives(option, option)
  {
    PiecesOfSplit(option, ':', ':');
    PiecesOfSplit(option, ',', ',');
  }
}
