/** Communities attributes (bgpd/bgp_community.c) and community-list deletion (bgpd/bgp_clist.c). */
module Communities {
  import opened Wrappers
  import opened Decimal
  import opened Octets

  /** A community value in host order. */
  type Val = n: nat | n < 0x1_0000_0000

  const Internet: Val := 0
  const NoExport: Val := 0xFFFFFF01
  const NoAdvertise: Val := 0xFFFFFF02
  const LocalAs: Val := 0xFFFFFF03

  // ---------------------------------------------------------------- ordering and matching

  predicate Ascending(c: seq<Val>) {
    forall i, j | 0 <= i < j < |c| :: c[i] < c[j]
  }

  predicate SameMembers(a: seq<Val>, b: seq<Val>) {
    forall v: Val :: v in a <==> v in b
  }

  /** The first occurrence of every value. */
  function Uniq(c: seq<Val>): (r: seq<Val>)
    ensures SameMembers(r, c)
    ensures forall i, j | 0 <= i < j < |r| :: r[i] != r[j]
  {
    if c == [] then []
    else
      var last := |c| - 1;
      var r := Uniq(c[..last]);
      assert c == c[..last] + [c[last]];
      if c[last] in r then r else r + [c[last]]
  }

  /** qsort with community_compare, on lists without repetition: any sort gives the same list. */
  function Qsort(c: seq<Val>): (r: seq<Val>)
    requires forall i, j | 0 <= i < j < |c| :: c[i] != c[j]
    ensures Ascending(r) && SameMembers(r, c) && |r| == |c|
  {
    if c == [] then []
    else
      assert c == [c[0]] + c[1..];
      assert c[0] !in c[1..];
      Insert(Qsort(c[1..]), c[0])
  }

  function Insert(c: seq<Val>, v: Val): (r: seq<Val>)
    requires Ascending(c) && v !in c
    ensures Ascending(r) && |r| == |c| + 1
    ensures forall w: Val :: w in r <==> w in c || w == v
  {
    if c == [] then [v]
    else
      assert c == [c[0]] + c[1..];
      if v < c[0] then [v] + c
      else
        var r := Insert(c[1..], v);
        assert forall i | 0 <= i < |r| :: r[i] in r;
        [c[0]] + r
  }

  function UniqSort(c: seq<Val>): seq<Val> {
    Qsort(Uniq(c))
  }

  lemma SomeMember(c: seq<Val>)
    ensures c == [] || exists v: Val :: v in c
  {
    if c != [] {
      assert c[0] in c;
    }
  }

  /** An ascending list is determined by its members. */
  lemma {:induction false} AscendingUnique(a: seq<Val>, b: seq<Val>)
    requires Ascending(a) && Ascending(b) && SameMembers(a, b)
    ensures a == b
  {
    if a == [] {
      SomeMember(b);
    } else {
      assert a[0] in a && a[0] in b;
      assert b[0] in b && b[0] in a;
      assert a[0] == b[0];
      var a', b' := a[1..], b[1..];
      assert a == [a[0]] + a' && b == [b[0]] + b';
      forall v: Val
        ensures v in a' <==> v in b'
      {
        assert v in a <==> v in b;
        assert a[0] !in a' && b[0] !in b';
      }
      AscendingUnique(a', b');
    }
  }

  /** The result is the one strictly ascending list with the members of the input. */
  lemma UniqSortMeans(c: seq<Val>, r: seq<Val>)
    ensures r == UniqSort(c) <==> Ascending(r) && SameMembers(r, c)
  {
    if Ascending(r) && SameMembers(r, c) {
      AscendingUnique(r, UniqSort(c));
    }
  }

  /** uniq_sort leaves exactly the strictly ascending lists alone. */
  lemma UniqSortFixed(c: seq<Val>)
    ensures UniqSort(c) == c <==> Ascending(c)
  {
    UniqSortMeans(c, c);
  }

  /** What the forward scan of community_match finds: `b` lies in `a`, in order. */
  predicate Embeds(a: seq<Val>, b: seq<Val>) {
    if b == [] then true
    else if a == [] then false
    else Embeds(a[1..], if a[0] == b[0] then b[1..] else b)
  }

  lemma {:induction false} EmbedsLength(a: seq<Val>, b: seq<Val>)
    requires Embeds(a, b)
    ensures |b| <= |a|
  {
    if b != [] {
      EmbedsLength(a[1..], if a[0] == b[0] then b[1..] else b);
    }
  }

  /** On ascending lists one forward scan decides inclusion. */
  lemma {:induction false} EmbedsIsSubset(a: seq<Val>, b: seq<Val>)
    requires Ascending(a) && Ascending(b)
    ensures Embeds(a, b) <==> forall v | v in b :: v in a
  {
    if b != [] && a != [] {
      var a', b' := a[1..], b[1..];
      assert a == [a[0]] + a' && b == [b[0]] + b';
      if a[0] == b[0] {
        EmbedsIsSubset(a', b');
        if !Embeds(a', b') {
          var v: Val :| v in b' && v !in a';
          assert v in b && v != a[0];
        }
      } else {
        EmbedsIsSubset(a', b);
        assert b[0] in b;
        if a[0] in b {
          assert b[0] < a[0];
          assert b[0] !in a;
        }
      }
    } else if b != [] {
      assert b[0] in b;
    }
  }

  // ---------------------------------------------------------------- text

  /** One value as it is printed. */
  function Text(v: Val): string {
    if v == Internet then "internet"
    else if v == NoExport then "no-export"
    else if v == NoAdvertise then "no-advertise"
    else if v == LocalAs then "local-AS"
    else Digits(v / 0x1_0000) + (":" + Digits(v % 0x1_0000))
  }

  function Join(c: seq<Val>): string {
    if c == [] then ""
    else if |c| == 1 then Text(c[0])
    else Text(c[0]) + " " + Join(c[1..])
  }

  /** The space that community_com2str reserves for a value. */
  function Reserve(v: Val): nat {
    if v == Internet then |" internet"|
    else if v == NoExport then |" no-export"|
    else if v == NoAdvertise then |" no-advertise"|
    else if v == LocalAs then |" local-AS"|
    else |" 65536:65535"|
  }

  function Reserved(c: seq<Val>): nat {
    if c == [] then 0 else Reserved(c[..|c| - 1]) + Reserve(c[|c| - 1])
  }

  lemma TextFits(v: Val)
    ensures |Text(v)| + 1 <= Reserve(v)
  {
    ShortNumeral(v / 0x1_0000);
    ShortNumeral(v % 0x1_0000);
  }

  lemma {:induction false} JoinSnoc(c: seq<Val>, v: Val)
    requires c != []
    ensures Join(c + [v]) == Join(c) + " " + Text(v)
  {
    if |c| == 1 {
      assert (c + [v])[1..] == [v];
    } else {
      var d := c[1..];
      JoinSnoc(d, v);
      assert (c + [v])[0] == c[0] && (c + [v])[1..] == d + [v];
      assert Text(c[0]) + " " + (Join(d) + " " + Text(v)) == Text(c[0]) + " " + Join(d) + " " + Text(v);
    }
  }

  /** The text of the first i values, and the space reserved for them. */
  function Printed(c: seq<Val>, i: nat): (string, nat)
    requires i <= |c|
  {
    (Join(c[..i]), Reserved(c[..i]))
  }

  lemma PrintedEnds(c: seq<Val>)
    ensures Printed(c, 0) == ("", 0) && Printed(c, |c|) == (Join(c), Reserved(c))
  {
    assert c[..|c|] == c;
  }

  lemma PrintStep(c: seq<Val>, i: nat)
    requires i < |c|
    ensures Printed(c, i + 1).0 == (if i == 0 then "" else Printed(c, i).0 + " ") + Text(c[i])
    ensures |Text(c[i])| + 1 + Printed(c, i).1 <= Printed(c, i + 1).1
  {
    TextFits(c[i]);
    assert c[..i + 1] == c[..i] + [c[i]] && c[..i + 1][..i] == c[..i];
    if i > 0 {
      JoinSnoc(c[..i], c[i]);
    }
  }

  predicate IsAlpha(c: char) {
    'a' <= c <= 'z' || 'A' <= c <= 'Z'
  }

  /** What community_gettoken reports. */
  datatype Token = End | Value(val: Val, rest: string) | Unknown

  /** The AS:VAL scanner, from any point of its loop, in 32-bit arithmetic. */
  function Scan(s: string, separator: bool, digit: bool, low: Val, high: Val): (t: Token)
    ensures t.Value? ==> |t.rest| <= |s| && (!digit ==> |t.rest| < |s|)
  {
    if s == [] || !(IsDigit(s[0]) || s[0] == ':') then
      if digit then Value((high + low) % 0x1_0000_0000, s) else Unknown
    else if s[0] == ':' then
      if separator then Unknown else Scan(s[1..], true, false, 0, (low * 0x1_0000) % 0x1_0000_0000)
    else Scan(s[1..], separator, true, (low * 10 + DigitOf(s[0])) % 0x1_0000_0000, high)
  }

  function GetToken(s: string): (t: Token)
    ensures t.Value? ==> |t.rest| < |s|
  {
    var p := SkipSpace(s);
    if p == [] then End
    else if IsAlpha(p[0]) then
      if "internet" <= p then Value(Internet, p[|"internet"|..])
      else if "no-export" <= p then Value(NoExport, p[|"no-export"|..])
      else if "no-advertise" <= p then Value(NoAdvertise, p[|"no-advertise"|..])
      else if "local-AS" <= p then Value(LocalAs, p[|"local-AS"|..])
      else Unknown
    else if IsDigit(p[0]) then
      Scan(p, false, false, 0, 0)
    else Unknown
  }

  /** All values of a text, in order; None as soon as a token is unknown. */
  function Values(s: string): Option<seq<Val>>
    decreases |s|
  {
    match GetToken(s)
    case End => Some([])
    case Unknown => None
    case Value(v, rest) => Behind([v], Values(rest))
  }

  /** The values `c` in front of what was read later. */
  function Behind(c: seq<Val>, later: Option<seq<Val>>): Option<seq<Val>> {
    match later
    case None => None
    case Some(vs) => Some(c + vs)
  }

  lemma BehindStep(c: seq<Val>, v: Val, later: Option<seq<Val>>)
    ensures Behind(c, Behind([v], later)) == Behind(c + [v], later)
    ensures Behind([], later) == later
  {
    if later.Some? {
      assert c + ([v] + later.value) == c + [v] + later.value;
      assert [] + later.value == later.value;
    }
  }

  /** community_str2com; None is NULL. */
  function Str2Com(s: string): Option<seq<Val>> {
    match Values(s)
    case None => None
    case Some(vs) => if vs == [] then None else Some(UniqSort(vs))
  }

  /** Nothing that could belong to the preceding value. */
  predicate Separated(t: string) {
    t == [] || t[0] == ' '
  }

  lemma {:induction false} ScanDigits(ds: string, t: string, separator: bool, digit: bool, low: Val, high: Val)
    requires AllDigits(ds)
    ensures Accumulate(ds, low, 0x1_0000_0000) < 0x1_0000_0000
    ensures Scan(ds + t, separator, digit, low, high)
         == Scan(t, separator, digit || ds != [], Accumulate(ds, low, 0x1_0000_0000), high)
  {
    if ds == [] {
      assert ds + t == t;
    } else {
      assert (ds + t)[1..] == ds[1..] + t && (ds + t)[0] == ds[0];
      ScanDigits(ds[1..], t, separator, true, (low * 10 + DigitOf(ds[0])) % 0x1_0000_0000, high);
    }
  }

  lemma NumberToken(v: Val, t: string)
    requires Separated(t)
    ensures GetToken(Digits(v / 0x1_0000) + (":" + (Digits(v % 0x1_0000) + t))) == Value(v, t)
  {
    var a, b := Digits(v / 0x1_0000), Digits(v % 0x1_0000);
    var s := a + (":" + (b + t));
    assert IsDigit(s[0]) && s[0] == a[0];
    assert SkipSpace(s) == s;
    ScanDigits(a, ":" + (b + t), false, false, 0, 0);
    ReadBack(v / 0x1_0000, 0x1_0000_0000);
    ScanLow(v / 0x1_0000, v % 0x1_0000, t);
    assert v / 0x1_0000 * 0x1_0000 + v % 0x1_0000 == v;
  }

  lemma ScanLow(hi: nat, lo: nat, t: string)
    requires hi < 0x1_0000 && lo < 0x1_0000 && Separated(t)
    ensures Scan(":" + (Digits(lo) + t), false, true, hi, 0) == Value(hi * 0x1_0000 + lo, t)
  {
    var high := hi * 0x1_0000;
    SmallMod(high, 0x1_0000_0000);
    ScanColon(Digits(lo) + t, hi);
    ScanDigits(Digits(lo), t, true, false, 0, high);
    ReadBack(lo, 0x1_0000_0000);
    ScanEnd(t, lo, high);
  }

  lemma ScanEnd(t: string, low: Val, high: Val)
    requires Separated(t) && high + low < 0x1_0000_0000
    ensures Scan(t, true, true, low, high) == Value(high + low, t)
  {
  }

  lemma ScanColon(s: string, low: Val)
    ensures Scan(":" + s, false, true, low, 0) == Scan(s, true, false, 0, (low * 0x1_0000) % 0x1_0000_0000)
  {
    assert (":" + s)[0] == ':' && (":" + s)[1..] == s;
  }

  /** The scanner undoes the printer on one value, well-known names included. */
  lemma TextToken(v: Val, t: string)
    requires Separated(t)
    ensures GetToken(Text(v) + t) == Value(v, t)
  {
    if v == Internet || v == NoExport || v == NoAdvertise || v == LocalAs {
      NameToken(Text(v), v, t);
    } else {
      NumberToken(v, t);
      Regroup(Digits(v / 0x1_0000), ":", Digits(v % 0x1_0000), t);
    }
  }

  lemma NameToken(name: string, v: Val, t: string)
    requires v == Internet || v == NoExport || v == NoAdvertise || v == LocalAs
    requires name == Text(v)
    ensures GetToken(name + t) == Value(v, t)
  {
    var s := name + t;
    assert s[0] == name[0] && s[3] == name[3];
    assert name <= s && s[|name|..] == t;
    assert SkipSpace(s) == s;
  }

  lemma SpaceSkipped(s: string)
    ensures GetToken(" " + s) == GetToken(s)
  {
    assert (" " + s)[1..] == s;
  }

  /** The texts of the well-known values, and of the others by their two halves. */
  lemma TextsAre(high: nat, low: nat)
    requires high < 0x1_0000 && low < 0x1_0000
    ensures Text(0) == "internet" && Text(0xFFFFFF01) == "no-export"
    ensures Text(0xFFFFFF02) == "no-advertise" && Text(0xFFFFFF03) == "local-AS"
    ensures var v: Val := high * 0x1_0000 + low;
      v !in {0, 0xFFFFFF01, 0xFFFFFF02, 0xFFFFFF03} ==> Text(v) == Digits(high) + (":" + Digits(low))
  {
    var v: Val := high * 0x1_0000 + low;
    assert v / 0x1_0000 == high && v % 0x1_0000 == low;
  }

  /** A numeral alone is read as a whole value, and two with a colon between them as its halves, in 32-bit
      arithmetic. A colon without digits behind it is refused, and so is a second colon. */
  lemma NumeralsRead(x: string, y: string, t: string)
    requires x != [] && AllDigits(x) && AllDigits(y) && Separated(t)
    ensures var m := 0x1_0000_0000;
      && GetToken(x + t) == Value(Accumulate(x, 0, m) % m, t)
      && GetToken(x + (":" + (y + t))) ==
           (if y == [] then Unknown else Value((Accumulate(x, 0, m) * 0x1_0000 % m + Accumulate(y, 0, m)) % m, t))
      && GetToken(x + (":" + (y + (":" + t)))) == Unknown
  {
    var m := 0x1_0000_0000;
    NumeralFirst(x, t);
    NumeralFirst(x, ":" + (y + t));
    NumeralFirst(x, ":" + (y + (":" + t)));
    HalfRead(Accumulate(x, 0, m), y, t);
    SecondColon(Accumulate(x, 0, m), y, t);
  }

  lemma HalfRead(n: Val, y: string, t: string)
    requires AllDigits(y) && Separated(t)
    ensures var m := 0x1_0000_0000;
      Scan(":" + (y + t), false, true, n, 0) ==
        if y == [] then Unknown else Value((n * 0x1_0000 % m + Accumulate(y, 0, m)) % m, t)
  {
    ScanColon(y + t, n);
    ScanDigits(y, t, true, false, 0, n * 0x1_0000 % 0x1_0000_0000);
  }

  lemma SecondColon(n: Val, y: string, t: string)
    requires AllDigits(y)
    ensures Scan(":" + (y + (":" + t)), false, true, n, 0) == Unknown
  {
    ScanColon(y + (":" + t), n);
    ScanDigits(y, ":" + t, true, false, 0, n * 0x1_0000 % 0x1_0000_0000);
    assert (":" + t)[0] == ':';
  }

  lemma NumeralFirst(x: string, t: string)
    requires x != [] && AllDigits(x)
    ensures Accumulate(x, 0, 0x1_0000_0000) < 0x1_0000_0000
    ensures GetToken(x + t) == Scan(t, false, true, Accumulate(x, 0, 0x1_0000_0000), 0)
  {
    ScanDigits(x, t, false, false, 0, 0);
    assert (x + t)[0] == x[0];
    assert SkipSpace(x + t) == x + t;
  }

  /** A value in front of a separated text is read first. */
  lemma ReadOne(v: Val, t: string)
    requires Separated(t)
    ensures Values(Text(v) + t) == Behind([v], Values(t))
  {
    TextToken(v, t);
  }

  lemma ReadSpace(s: string)
    ensures Values(" " + s) == Values(s)
  {
    SpaceSkipped(s);
  }

  lemma {:induction false} ReadJoin(c: seq<Val>)
    ensures Values(Join(c)) == Some(c)
  {
    if c == [] {
      assert GetToken("") == End;
    } else if |c| == 1 {
      ReadOne(c[0], "");
      assert GetToken("") == End;
      assert Text(c[0]) + "" == Text(c[0]);
      assert [c[0]] + [] == c;
    } else {
      var rest := Join(c[1..]);
      ReadJoin(c[1..]);
      ReadSpace(rest);
      ReadOne(c[0], " " + rest);
      assert Text(c[0]) + " " + rest == Text(c[0]) + (" " + rest);
      assert [c[0]] + c[1..] == c;
    }
  }

  /** Reading what was printed gives the sorted list without repetitions; the empty list is lost.
      So the text round trip is exact precisely on non-empty strictly ascending lists. */
  lemma TextRoundTrip(c: seq<Val>)
    ensures Str2Com(Join(c)) == if c == [] then None else Some(UniqSort(c))
    ensures Str2Com(Join(c)) == Some(c) <==> c != [] && Ascending(c)
  {
    ReadJoin(c);
    UniqSortFixed(c);
  }

  /** Whatever text is accepted, printing and reading the result again changes nothing. */
  lemma AcceptedIsStable(s: string)
    requires Str2Com(s).Some?
    ensures Str2Com(Join(Str2Com(s).value)) == Str2Com(s)
  {
    var vs := Values(s).value;
    assert vs[0] in vs && vs[0] in UniqSort(vs);
    TextRoundTrip(UniqSort(vs));
  }

  // ---------------------------------------------------------------- community lists

  datatype Style = Standard | Expanded

  /** One line of a community-list; `reg` is a compiled expression, seen as a predicate on texts. */
  datatype Entry = Entry(permit: bool, any: bool, style: Style, com: Option<seq<Val>>, reg: Option<string -> bool>)

  predicate Matches(e: Entry, v: Val) {
    || e.any
    || (e.style.Standard? && e.com.Some? && v in e.com.value)
    || (e.style.Expanded? && e.reg.Some? && e.reg.value(Text(v)))
  }

  /** The first entry that matches decides; it deletes when it is a permit. */
  predicate Deleted(v: Val, list: seq<Entry>) {
    if list == [] then false
    else if Matches(list[0], v) then list[0].permit
    else Deleted(v, list[1..])
  }

  /** The k-th entry is the first that matches v. */
  ghost predicate FirstMatch(v: Val, list: seq<Entry>, k: nat) {
    k < |list| && Matches(list[k], v) && forall j | 0 <= j < k :: !Matches(list[j], v)
  }

  /** Deleted said without recursion: the first entry that matches is a permit. */
  lemma {:induction false} DeletedMeans(v: Val, list: seq<Entry>)
    ensures Deleted(v, list) <==> exists k: nat :: FirstMatch(v, list, k) && list[k].permit
  {
    if list != [] {
      var rest := list[1..];
      DeletedMeans(v, rest);
      if Deleted(v, rest) && !Matches(list[0], v) {
        var k: nat :| FirstMatch(v, rest, k) && rest[k].permit;
        var k' := k + 1;
        assert list[k'] == rest[k] && forall j | 0 < j < k' :: list[j] == rest[j - 1];
        assert FirstMatch(v, list, k');
      }
      if k: nat :| FirstMatch(v, list, k) && list[k].permit {
        if k > 0 {
          var k' := k - 1;
          assert !Matches(list[0], v);
          assert rest[k'] == list[k] && forall j | 0 <= j < k' :: rest[j] == list[j + 1];
          assert FirstMatch(v, rest, k');
        }
      }
    }
  }

  /** What an entry matches: everything, the values of its list, or those whose text its expression takes. */
  lemma MatchesMeans(e: Entry, v: Val)
    ensures e.any ==> Matches(e, v)
    ensures !e.any && e.style == Standard ==> (Matches(e, v) <==> e.com.Some? && v in e.com.value)
    ensures !e.any && e.style == Expanded ==> (Matches(e, v) <==> e.reg.Some? && e.reg.value(Text(v)))
  {
  }

  /** On a standard list a value goes exactly when the first entry that names it is a permit. */
  lemma StandardDeleted(v: Val, list: seq<Entry>)
    requires forall k | 0 <= k < |list| :: list[k].style == Standard && !list[k].any && list[k].com.Some?
    ensures Deleted(v, list) <==>
      exists k :: 0 <= k < |list| && list[k].permit && v in list[k].com.value
                  && forall j | 0 <= j < k :: v !in list[j].com.value
  {
    forall k | 0 <= k < |list| ensures Matches(list[k], v) <==> v in list[k].com.value {
      MatchesMeans(list[k], v);
    }
    DeletedMeans(v, list);
    if k: nat :| FirstMatch(v, list, k) && list[k].permit {
      assert v in list[k].com.value;
    }
    if k :| 0 <= k < |list| && list[k].permit && v in list[k].com.value
            && forall j | 0 <= j < k :: v !in list[j].com.value {
      assert FirstMatch(v, list, k);
    }
  }

  function Kept(c: seq<Val>, list: seq<Entry>): seq<Val> {
    if c == [] then []
    else
      var last := |c| - 1;
      if Deleted(c[last], list) then Kept(c[..last], list) else Kept(c[..last], list) + [c[last]]
  }

  lemma {:induction false} KeptMembers(c: seq<Val>, list: seq<Entry>)
    ensures forall v: Val :: v in Kept(c, list) <==> v in c && !Deleted(v, list)
  {
    if c != [] {
      var last := |c| - 1;
      KeptMembers(c[..last], list);
      assert c == c[..last] + [c[last]];
    }
  }

  /** `c` without the first occurrence of `v`. */
  function Without(c: seq<Val>, v: Val): seq<Val> {
    if c == [] then [] else if c[0] == v then c[1..] else [c[0]] + Without(c[1..], v)
  }

  /** Where `v` first occurs; the length if it does not. */
  function IndexOf(c: seq<Val>, v: Val): (i: nat)
    ensures i <= |c| && v !in c[..i] && (i < |c| ==> c[i] == v)
  {
    if c == [] || c[0] == v then 0
    else
      var i := IndexOf(c[1..], v);
      assert c[..i + 1] == [c[0]] + c[1..][..i];
      i + 1
  }

  lemma {:induction false} IndexOfIs(c: seq<Val>, v: Val, i: nat)
    requires i <= |c| && (forall k | 0 <= k < i :: c[k] != v) && (i < |c| ==> c[i] == v)
    ensures IndexOf(c, v) == i
  {
    if i > 0 {
      IndexOfIs(c[1..], v, i - 1);
    }
  }

  /** With pointers of eight octets the copy of community_del_val moves twice the octets that follow the
      value, and writes behind the array exactly when more than one value follows. */
  predicate WritesBehind(c: seq<Val>, v: Val, pointer: nat) {
    pointer == 8 && IndexOf(c, v) + 2 < |c|
  }

  /** The first of three values is enough; the first of two is not. */
  lemma ThreeValues()
    ensures WritesBehind([1, 2, 3], 1, 8) && !WritesBehind([1, 2], 1, 8) && !WritesBehind([1, 2, 3], 1, 4)
  {
  }

  lemma {:induction false} WithoutAt(c: seq<Val>, i: nat)
    requires i < |c| && forall k | 0 <= k < i :: c[k] != c[i]
    ensures Without(c, c[i]) == c[..i] + c[i + 1..]
  {
    if i > 0 {
      var d := c[1..];
      var j := i - 1;
      WithoutAt(d, j);
      assert d[..j] == c[1..i] && d[j + 1..] == c[i + 1..];
      assert c[..i] == [c[0]] + c[1..i];
    }
  }

  /** The copy when the values before i have been judged. */
  function Stage(c: seq<Val>, i: nat, list: seq<Entry>): seq<Val>
    requires i <= |c|
  {
    Kept(c[..i], list) + c[i..]
  }

  lemma StageEnds(c: seq<Val>, list: seq<Entry>)
    ensures Stage(c, 0, list) == c && Stage(c, |c|, list) == Kept(c, list)
  {
    assert c[..|c|] == c;
  }

  /** Deleting the first occurrence of a value that goes deletes the one at hand: those before are gone. */
  lemma DeleteStep(c: seq<Val>, i: nat, list: seq<Entry>)
    requires i < |c|
    ensures Stage(c, i + 1, list) == if Deleted(c[i], list) then Without(Stage(c, i, list), c[i]) else Stage(c, i, list)
    ensures Deleted(c[i], list) ==> IndexOf(Stage(c, i, list), c[i]) + (|c| - i) == |Stage(c, i, list)|
  {
    var a := Kept(c[..i], list);
    assert c[..i + 1][..i] == c[..i];
    if Deleted(c[i], list) {
      KeptMembers(c[..i], list);
      WithoutBehind(a, c[i..], c[i]);
      assert c[i..][1..] == c[i + 1..];
    } else {
      assert a + c[i..] == a + [c[i]] + c[i + 1..];
    }
  }

  /** A value that does not stand in front is the first of its kind. */
  lemma {:induction false} WithoutBehind(a: seq<Val>, r: seq<Val>, v: Val)
    requires v !in a && r != [] && r[0] == v
    ensures Without(a + r, v) == a + r[1..] && IndexOf(a + r, v) == |a|
  {
    if a == [] {
      assert a + r == r;
    } else {
      var b := a[1..];
      WithoutBehind(b, r, v);
      assert (a + r)[0] == a[0] && (a + r)[1..] == b + r;
      assert [a[0]] + (b + r[1..]) == a + r[1..];
    }
  }

  lemma {:induction false} WithoutAbsent(c: seq<Val>, v: Val)
    requires v !in c
    ensures Without(c, v) == c
  {
    if c != [] {
      WithoutAbsent(c[1..], v);
    }
  }

  /** struct community. */
  class Community {
    var vals: seq<Val>

    constructor (vals: seq<Val>)
      ensures this.vals == vals
    {
      this.vals := vals;
    }

    /** community_include. */
    method Include(v: Val) returns (r: bool)
      ensures r <==> v in vals
    {
      var i := 0;
      while i < |vals|
        invariant 0 <= i <= |vals| && v !in vals[..i]
      {
        if vals[i] == v {
          return true;
        }
        i := i + 1;
      }
      return false;
    }

    /** community_add_val. */
    method AddVal(v: Val)
      modifies this
      ensures vals == old(vals) + [v]
    {
      vals := vals + [v];
    }

    /** community_del_val, on a machine whose pointers have that many octets: `sizeof (val)` in its copy is
        the size of a pointer. The list is right in any case; `behind` says whether the copy has written
        behind the array. */
    method DelVal(v: Val, pointer: nat) returns (behind: bool)
      requires pointer == 4 || pointer == 8
      modifies this
      ensures vals == Without(old(vals), v)
      ensures behind <==> WritesBehind(old(vals), v, pointer)
    {
      var i := 0;
      while i < |vals| && vals[i] != v
        invariant 0 <= i <= |vals| && v !in vals[..i]
        modifies {}
      {
        i := i + 1;
      }
      IndexOfIs(vals, v, i);
      behind := false;
      if i < |vals| {
        var c := |vals| - i - 1;
        behind := c > 0 && 4 * i + c * pointer > 4 * |vals|;
        WithoutAt(vals, i);
        vals := vals[..i] + vals[i + 1..];
      } else {
        WithoutAbsent(vals, v);
      }
    }

    /** community_uniq_sort. */
    method Sorted() returns (r: Community)
      ensures fresh(r) && r.vals == UniqSort(vals)
    {
      r := new Community([]);
      var i := 0;
      while i < |vals|
        invariant 0 <= i <= |vals| && fresh(r) && r.vals == Uniq(vals[..i])
      {
        assert vals[..i + 1][..i] == vals[..i];
        var present := r.Include(vals[i]);
        if !present {
          r.AddVal(vals[i]);
        }
        i := i + 1;
      }
      assert vals[..i] == vals;
      r.vals := Qsort(r.vals);
    }

    /** community_com2str: the text, in the space computed for it. */
    method Com2Str() returns (str: string)
      ensures str == Join(vals)
      ensures vals != [] ==> |str| + 1 <= Reserved(vals)
    {
      str := "";
      var c, i := vals, 0;
      PrintedEnds(c);
      while i < |c|
        invariant 0 <= i <= |c| && str == Printed(c, i).0
        invariant i > 0 ==> |str| + 1 <= Printed(c, i).1
      {
        PrintStep(c, i);
        if i > 0 {
          str := str + " ";
        }
        str := str + Text(c[i]);
        i := i + 1;
      }
    }

    /** The inner loop of community_list_match_delete, for one value. */
    method Judge(v: Val, list: seq<Entry>, pointer: nat) returns (behind: bool)
      requires pointer == 4 || pointer == 8
      modifies this
      ensures vals == if Deleted(v, list) then Without(old(vals), v) else old(vals)
      ensures behind <==> Deleted(v, list) && WritesBehind(old(vals), v, pointer)
    {
      behind := false;
      var delete := IsDeleted(v, list);
      if delete {
        behind := DelVal(v, pointer);
      }
    }

    /** community_list_match_delete: exactly the values that the list does not delete stay, in order,
        repeated values included. With pointers of eight octets, memory behind the copy is written exactly
        when a value other than the last two is deleted. */
    method MatchDelete(list: seq<Entry>, pointer: nat) returns (merge: Community, behind: bool)
      requires pointer == 4 || pointer == 8
      ensures fresh(merge) && merge.vals == Kept(vals, list)
      ensures behind <==> pointer == 8 && exists i :: 0 <= i < |vals| - 2 && Deleted(vals[i], list)
    {
      merge := new Community(vals);
      StageEnds(vals, list);
      behind := merge.JudgeAll(vals, list, pointer);
      ReachesMeans(vals, list, |vals|);
    }

    /** The outer loop, on the copy. */
    method JudgeAll(c: seq<Val>, list: seq<Entry>, pointer: nat) returns (behind: bool)
      requires pointer == 4 || pointer == 8
      requires vals == Stage(c, 0, list)
      modifies this
      ensures vals == Stage(c, |c|, list)
      ensures behind == (pointer == 8 && Reaches(c, list, |c|))
    {
      behind := false;
      var i := 0;
      while i < |c|
        invariant 0 <= i <= |c| && vals == Stage(c, i, list)
        invariant behind == (pointer == 8 && Reaches(c, list, i))
      {
        JudgeStep(c, i, list, pointer);
        var b := Judge(c[i], list, pointer);
        behind := behind || b;
        i := i + 1;
      }
    }
  }

  /** Among the first i values one is deleted that more than one other follows. */
  predicate Reaches(c: seq<Val>, list: seq<Entry>, i: nat)
    requires i <= |c|
  {
    i > 0 && (Reaches(c, list, i - 1) || (i - 1 < |c| - 2 && Deleted(c[i - 1], list)))
  }

  lemma {:induction false} ReachesMeans(c: seq<Val>, list: seq<Entry>, i: nat)
    requires i <= |c|
    ensures Reaches(c, list, i) <==> exists k :: 0 <= k < i && k < |c| - 2 && Deleted(c[k], list)
  {
    if i > 0 {
      ReachesMeans(c, list, i - 1);
    }
  }

  lemma JudgeStep(c: seq<Val>, i: nat, list: seq<Entry>, pointer: nat)
    requires i < |c|
    ensures Stage(c, i + 1, list) == if Deleted(c[i], list) then Without(Stage(c, i, list), c[i]) else Stage(c, i, list)
    ensures Deleted(c[i], list) ==> (WritesBehind(Stage(c, i, list), c[i], pointer) <==> pointer == 8 && i < |c| - 2)
  {
    DeleteStep(c, i, list);
  }

  /** The loop over the entries. */
  method IsDeleted(v: Val, list: seq<Entry>) returns (r: bool)
    ensures r <==> Deleted(v, list)
  {
    var k := 0;
    while k < |list|
      invariant 0 <= k <= |list| && (Deleted(v, list) <==> Deleted(v, list[k..]))
    {
      if Matches(list[k], v) {
        return list[k].permit;
      }
      assert list[k..][1..] == list[k + 1..];
      k := k + 1;
    }
    return false;
  }

  /** community_match; null is NULL. */
  method Match(com1: Community?, com2: Community?) returns (r: bool)
    ensures com1 == null || com2 == null ==> (r <==> com1 == com2)
    ensures com1 != null && com2 != null ==> (r <==> Embeds(com1.vals, com2.vals))
    ensures com1 != null && com2 != null && Ascending(com1.vals) && Ascending(com2.vals) ==>
              (r <==> forall v | v in com2.vals :: v in com1.vals)
  {
    if com1 == null || com2 == null {
      return com1 == com2;
    }
    var a, b := com1.vals, com2.vals;
    if Ascending(a) && Ascending(b) {
      EmbedsIsSubset(a, b);
    }
    if |a| < |b| {
      if Embeds(a, b) {
        EmbedsLength(a, b);
      }
      return false;
    }
    var i, j := 0, 0;
    while i < |a| && j < |b|
      invariant 0 <= i <= |a| && 0 <= j <= |b|
      invariant Embeds(a, b) <==> Embeds(a[i..], b[j..])
      decreases |a| - i
    {
      assert a[i..][1..] == a[i + 1..] && b[j..][1..] == b[j + 1..];
      if a[i] == b[j] {
        j := j + 1;
      }
      i := i + 1;
    }
    return j == |b|;
  }

  /** community_gettoken, with its scanning loop. */
  method ReadToken(s: string) returns (t: Token)
    ensures t == GetToken(s)
  {
    var p := s;
    while p != [] && IsSpace(p[0])
      invariant SkipSpace(p) == SkipSpace(s)
      decreases |p|
    {
      p := p[1..];
    }
    assert p == SkipSpace(s);
    if p == [] {
      return End;
    }
    if IsAlpha(p[0]) {
      if "internet" <= p {
        return Value(Internet, p[8..]);
      }
      if "no-export" <= p {
        return Value(NoExport, p[9..]);
      }
      if "no-advertise" <= p {
        return Value(NoAdvertise, p[12..]);
      }
      if "local-AS" <= p {
        return Value(LocalAs, p[8..]);
      }
      return Unknown;
    }
    if !IsDigit(p[0]) {
      return Unknown;
    }
    var separator, digit := false, false;
    var low: Val, high: Val := 0, 0;
    ghost var goal := GetToken(s);
    while p != [] && (IsDigit(p[0]) || p[0] == ':')
      invariant Scan(p, separator, digit, low, high) == goal
      decreases |p|
    {
      if p[0] == ':' {
        if separator {
          return Unknown;
        }
        separator, digit, high, low := true, false, (low * 0x1_0000) % 0x1_0000_0000, 0;
      } else {
        digit, low := true, (low * 10 + DigitOf(p[0])) % 0x1_0000_0000;
      }
      p := p[1..];
    }
    if !digit {
      return Unknown;
    }
    return Value((high + low) % 0x1_0000_0000, p);
  }

  /** community_str2com. */
  method Parse(s: string) returns (r: Community?)
    ensures r == null <==> Str2Com(s) == None
    ensures r != null ==> fresh(r) && Str2Com(s) == Some(r.vals)
  {
    var com := new Community([]);
    var str := s;
    var token := ReadToken(str);
    BehindStep([], 0, Values(s));
    while token.Value?
      invariant fresh(com) && token == GetToken(str)
      invariant Values(s) == Behind(com.vals, Values(str))
      decreases |str|
    {
      BehindStep(com.vals, token.val, Values(token.rest));
      com.AddVal(token.val);
      str := token.rest;
      token := ReadToken(str);
    }
    if token.Unknown? {
      return null;
    }
    assert com.vals + [] == com.vals;
    if com.vals == [] {
      return null;
    }
    r := com.Sorted();
  }
}
