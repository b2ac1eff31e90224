/** `printVlans`: the text written to standard output once the observation
    window ends, and a reader for that text that shows it loses nothing. */
module Report {
  import opened VlanTag
  import opened Ordering
  import opened Aggregator

  datatype Option<T> = None | Some(value: T)

  const Header := "\nFound VLANs:\n"

  predicate IsDigit(c: char) {
    '0' <= c <= '9'
  }

  predicate AllDigits(s: string) {
    forall i :: 0 <= i < |s| ==> IsDigit(s[i])
  }

  function DigitChar(d: nat): (c: char)
    requires d < 10
    ensures IsDigit(c) && c as int - '0' as int == d
  {
    ('0' as int + d) as char
  }

  /** What `operator<<` writes for an unsigned integer: its decimal digits,
      without leading zeros. */
  function Decimal(n: nat): (s: string)
    ensures |s| > 0 && AllDigits(s)
    ensures s[0] == '0' ==> n == 0
  {
    if n < 10 then [DigitChar(n)] else Decimal(n / 10) + [DigitChar(n % 10)]
  }

  function ParseDecimal(s: string): (n: nat)
    requires AllDigits(s)
  {
    if s == [] then 0
    else ParseDecimal(s[..|s| - 1]) * 10 + (s[|s| - 1] as int - '0' as int)
  }

  lemma {:induction false} DecimalRoundTrip(n: nat)
    ensures ParseDecimal(Decimal(n)) == n
  {
    if n >= 10 {
      DecimalRoundTrip(n / 10);
      var s := Decimal(n);
      assert s[..|s| - 1] == Decimal(n / 10);
    }
  }

  predicate IdLess(a: u16, b: u16) {
    a < b
  }

  lemma IdLessIsStrictTotalOrder()
    ensures StrictTotalOrder(IdLess)
  {
  }

  /** The walk of a `std::set<unsigned short>`: ascending numeric order. */
  ghost function SortedIds(ids: set<u16>): (r: seq<u16>)
    ensures |r| == |ids| && (forall v :: v in r <==> v in ids)
    ensures forall i, j :: 0 <= i < j < |r| ==> r[i] < r[j]
  {
    IdLessIsStrictTotalOrder();
    SortedElementsAscending(ids, IdLess);
    SortedElements(ids, IdLess)
  }

  /** The walk of the keys of a `std::map<std::string, …>`: ascending
      `std::string` order. */
  ghost function SortedNames(names: set<string>): (r: seq<string>)
    ensures |r| == |names| && (forall k :: k in r <==> k in names)
  {
    StringLessIsStrictTotalOrder();
    SortedElementsAscending(names, StringLess);
    SortedElements(names, StringLess)
  }

  lemma SortedNamesAscending(names: set<string>)
    ensures var r := SortedNames(names);
            forall i, j :: 0 <= i < j < |r| ==> StringLess(r[i], r[j])
  {
    StringLessIsStrictTotalOrder();
    SortedElementsAscending(names, StringLess);
  }

  /** The IDs of one interface, each followed by one space. */
  function IdsText(ids: seq<u16>): (text: string)
    ensures ':' !in text && '\n' !in text
  {
    if ids == [] then "" else Decimal(ids[0]) + " " + IdsText(ids[1..])
  }

  /** `name: ids` and a newline. For a plain name the colon after the name
      is the line's only colon and the final newline its only newline. */
  function LineText(name: string, ids: seq<u16>): (line: string)
    ensures |line| >= |name| + 3
    ensures line[..|name| + 2] == name + ": " && line[|line| - 1] == '\n'
    ensures PlainName(name) ==> ':' !in line[|name| + 1..] && '\n' !in line[..|line| - 1]
  {
    var text := IdsText(ids);
    var line := name + ": " + text + "\n";
    assert line[|name| + 1..] == " " + text + "\n";
    assert line[..|line| - 1] == name + ": " + text;
    line
  }

  /** One line per interface, in the given order: empty exactly when there
      is no interface, and otherwise ended by a newline. */
  ghost function Lines(names: seq<string>, m: VlanMap): (text: string)
    requires forall k :: k in names ==> k in m
    ensures text == "" <==> names == []
    ensures names != [] ==> text[|text| - 1] == '\n'
  {
    if names == [] then "" else LineText(names[0], SortedIds(m[names[0]])) + Lines(names[1..], m)
  }

  /** The whole output of `printVlans`: the header, then the interfaces in
      ascending name order. The header alone exactly when no interface was
      recorded; otherwise the output ends with a newline. */
  ghost function Rendered(m: VlanMap): (out: string)
    ensures |out| >= |Header| && out[..|Header|] == Header
    ensures out == Header <==> m.Keys == {}
    ensures m.Keys != {} ==> out[|out| - 1] == '\n'
  {
    var body := Lines(SortedNames(m.Keys), m);
    assert (Header + body)[..|Header|] == Header;
    Header + body
  }

  lemma {:induction false} IdsTextAppend(ids: seq<u16>, v: u16)
    ensures IdsText(ids + [v]) == IdsText(ids) + Decimal(v) + " "
  {
    if ids != [] {
      assert (ids + [v])[1..] == ids[1..] + [v];
      IdsTextAppend(ids[1..], v);
    }
  }

  lemma {:induction false} LinesAppend(names: seq<string>, k: string, m: VlanMap)
    requires forall x :: x in names ==> x in m
    requires k in m
    ensures Lines(names + [k], m) == Lines(names, m) + LineText(k, SortedIds(m[k]))
  {
    if names != [] {
      var rest := names[1..];
      assert (names + [k])[0] == names[0];
      assert (names + [k])[1..] == rest + [k];
      LinesAppend(rest, k, m);
      ConcatAssociative(LineText(names[0], SortedIds(m[names[0]])), Lines(rest, m), LineText(k, SortedIds(m[k])));
    }
  }

  /** The inner loop: each ID of the set, in ascending order, followed by
      a space. */
  method PrintIds(ids: set<u16>) returns (text: string)
    ensures text == IdsText(SortedIds(ids))
  {
    IdLessIsStrictTotalOrder();
    var order := InOrder(ids, IdLess);
    text := "";
    for i := 0 to |order|
      invariant text == IdsText(order[..i])
    {
      assert order[..i + 1] == order[..i] + [order[i]];
      IdsTextAppend(order[..i], order[i]);
      text := text + Decimal(order[i]) + " ";
    }
    assert order[..|order|] == order;
  }

  /** The keys of the map in the order its iterator visits them. */
  method InterfaceOrder(vlans: VlanMap) returns (names: seq<string>)
    ensures names == SortedNames(vlans.Keys)
  {
    StringLessIsStrictTotalOrder();
    names := InOrder(vlans.Keys, StringLess);
  }

  lemma LinesStep(names: seq<string>, i: nat, vlans: VlanMap, out: string, line: string)
    requires i < |names| && forall k :: k in names ==> k in vlans
    requires out == Header + Lines(names[..i], vlans)
    requires line == LineText(names[i], SortedIds(vlans[names[i]]))
    ensures out + line == Header + Lines(names[..i + 1], vlans)
  {
    assert names[..i + 1] == names[..i] + [names[i]];
    LinesAppend(names[..i], names[i], vlans);
    ConcatAssociative(Header, Lines(names[..i], vlans), line);
  }

  /** Regrouping of a three-part concatenation. Dafny knows this fact, but
      stating it for the exact terms of `LinesStep` keeps that proof from
      depending on the solver finding the regrouping by itself. */
  lemma ConcatAssociative(a: string, b: string, c: string)
    ensures (a + b) + c == a + (b + c)
  {
  }

  /** `printVlans`: the header, then one line per interface in ascending
      name order. */
  method PrintVlans(vlans: VlanMap) returns (out: string)
    ensures out == Rendered(vlans)
  {
    var names := InterfaceOrder(vlans);
    out := Header;
    for i := 0 to |names|
      invariant out == Header + Lines(names[..i], vlans)
    {
      var name := names[i];
      var ids := PrintIds(vlans[name]);
      var line := name + ": " + ids + "\n";
      LinesStep(names, i, vlans, out, line);
      out := out + line;
    }
    assert names[..|names|] == names;
  }

  // Reading the report back.

  /** The text before and after the first `c`, if there is one. */
  function SplitAt(s: string, c: char): (r: Option<(string, string)>)
    ensures r.None? ==> c !in s
    ensures r.Some? ==> s == r.value.0 + [c] + r.value.1 && c !in r.value.0
  {
    if s == [] then None
    else if s[0] == c then Some(([], s[1..]))
    else
      match SplitAt(s[1..], c)
      case None => None
      case Some(parts) => Some(([s[0]] + parts.0, parts.1))
  }

  lemma {:induction false} SplitAtJoin(a: string, c: char, b: string)
    requires c !in a
    ensures SplitAt(a + [c] + b, c) == Some((a, b))
  {
    if a != [] {
      assert (a + [c] + b)[1..] == a[1..] + [c] + b;
      assert a[0] in a;
      SplitAtJoin(a[1..], c, b);
      assert [a[0]] + a[1..] == a;
    }
  }

  /** A run of IDs, each written in decimal and followed by one space. */
  function ParseIds(s: string): Option<seq<int>>
    decreases |s|
  {
    if s == [] then Some([])
    else
      match SplitAt(s, ' ')
      case None => None
      case Some(parts) =>
        if parts.0 == [] || !AllDigits(parts.0) then None
        else
          match ParseIds(parts.1)
          case None => None
          case Some(ids) => Some([ParseDecimal(parts.0) as int] + ids)
  }

  /** Lines of the form `name: ids`, each ended by a newline. */
  function ParseLines(s: string): Option<seq<(string, seq<int>)>>
    decreases |s|
  {
    if s == [] then Some([])
    else
      match SplitAt(s, '\n')
      case None => None
      case Some(parts) =>
        match SplitAt(parts.0, ':')
        case None => None
        case Some(fields) =>
          if fields.1 == [] || fields.1[0] != ' ' then None
          else
            match ParseIds(fields.1[1..])
            case None => None
            case Some(ids) =>
              match ParseLines(parts.1)
              case None => None
              case Some(rest) => Some([(fields.0, ids)] + rest)
  }

  /** Reads a report: the header, then the lines. */
  function ParseReport(text: string): Option<seq<(string, seq<int>)>> {
    if |text| < |Header| || text[..|Header|] != Header then None
    else ParseLines(text[|Header|..])
  }

  lemma {:induction false} IdsRoundTrip(ids: seq<u16>)
    ensures ParseIds(IdsText(ids)) == Some(ids)
  {
    if ids != [] {
      var token := Decimal(ids[0]);
      SplitAtJoin(token, ' ', IdsText(ids[1..]));
      DecimalRoundTrip(ids[0]);
      IdsRoundTrip(ids[1..]);
      assert [ids[0] as int] + ids[1..] == ids;
    }
  }

  /** Interface names as Linux accepts them hold no colon and no newline. */
  predicate PlainName(name: string) {
    ':' !in name && '\n' !in name
  }

  /** The entries of the report: each line's name with its IDs in order. */
  ghost function EntriesOf(names: seq<string>, m: VlanMap): seq<(string, seq<int>)>
    requires forall k :: k in names ==> k in m
  {
    if names == [] then []
    else
      var ids: seq<int> := SortedIds(m[names[0]]);
      [(names[0], ids)] + EntriesOf(names[1..], m)
  }

  lemma LineRoundTrip(name: string, ids: seq<u16>, rest: string)
    requires PlainName(name)
    ensures var wide: seq<int> := ids;
            ParseLines(LineText(name, ids) + rest)
            == match ParseLines(rest)
               case None => None
               case Some(es) => Some([(name, wide)] + es)
  {
    var text := IdsText(ids);
    var line := name + ": " + text;
    assert LineText(name, ids) + rest == line + ['\n'] + rest;
    SplitAtJoin(line, '\n', rest);
    assert line == name + [':'] + (" " + text);
    SplitAtJoin(name, ':', " " + text);
    assert (" " + text)[1..] == text;
    IdsRoundTrip(ids);
  }

  lemma {:induction false} LinesRoundTrip(names: seq<string>, m: VlanMap)
    requires forall k :: k in names ==> k in m && PlainName(k)
    ensures ParseLines(Lines(names, m)) == Some(EntriesOf(names, m))
  {
    if names != [] {
      LineRoundTrip(names[0], SortedIds(m[names[0]]), Lines(names[1..], m));
      LinesRoundTrip(names[1..], m);
    }
  }

  /** Reading the printed report gives back, in order, every interface with
      its IDs in ascending order. */
  lemma ReportRoundTrip(m: VlanMap)
    requires forall k :: k in m ==> PlainName(k)
    ensures ParseReport(Rendered(m)) == Some(EntriesOf(SortedNames(m.Keys), m))
  {
    var body := Lines(SortedNames(m.Keys), m);
    assert (Header + body)[..|Header|] == Header;
    assert (Header + body)[|Header|..] == body;
    LinesRoundTrip(SortedNames(m.Keys), m);
  }

  /** Line `n` of the report names the `n`-th interface in ascending order
      and lists its IDs in ascending order. */
  lemma {:induction false} EntriesAt(names: seq<string>, m: VlanMap, n: nat)
    requires forall k :: k in names ==> k in m
    requires n < |names|
    ensures |EntriesOf(names, m)| == |names|
    ensures EntriesOf(names, m)[n].0 == names[n]
    ensures EntriesOf(names, m)[n].1 == SortedIds(m[names[n]])
  {
    if n > 0 {
      EntriesAt(names[1..], m, n - 1);
    } else {
      EntriesLength(names[1..], m);
    }
  }

  lemma {:induction false} EntriesLength(names: seq<string>, m: VlanMap)
    requires forall k :: k in names ==> k in m
    ensures |EntriesOf(names, m)| == |names|
  {
    if names != [] {
      EntriesLength(names[1..], m);
    }
  }

  /** With no interface observed, the report is the header alone. */
  lemma RenderedEmpty()
    ensures Rendered(map[]) == Header
  {
  }

  lemma RenderedOneInterface()
    ensures Rendered(map["eth0" := {10, 20}]) == "\nFound VLANs:\neth0: 10 20 \n"
  {
    TwoIds(10, 20);
    TwoIdsText();
    RenderedSingle("eth0", {10, 20}, [10, 20], "10 20 ");
    assert Header + ("eth0" + ": " + "10 20 " + "\n") == "\nFound VLANs:\neth0: 10 20 \n";
  }

  /** The report of a map with a single interface. */
  lemma RenderedSingle(name: string, ids: set<u16>, order: seq<u16>, text: string)
    requires SortedIds(ids) == order && IdsText(order) == text
    ensures Rendered(map[name := ids]) == Header + (name + ": " + text + "\n")
  {
    var m := map[name := ids];
    assert m.Keys == {name};
    OneName(name);
    OneLine([name], m);
  }

  lemma OneLine(names: seq<string>, m: VlanMap)
    requires |names| == 1 && names[0] in m
    ensures Lines(names, m) == LineText(names[0], SortedIds(m[names[0]]))
  {
    assert Lines(names[1..], m) == [];
  }

  lemma OneName(name: string)
    ensures SortedNames({name}) == [name]
  {
  }

  lemma TwoIds(a: u16, b: u16)
    requires a < b
    ensures SortedIds({a, b}) == [a, b]
  {
    var ids := SortedIds({a, b});
    assert ids[0] in {a, b} && ids[1] in {a, b} && ids[0] < ids[1];
  }

  lemma TwoIdsText()
    ensures IdsText([10, 20]) == "10 20 "
  {
    assert Decimal(10) == "10" && Decimal(20) == "20";
    assert [10, 20][1..] == [20];
    assert IdsText([20]) == "20 ";
  }
}
