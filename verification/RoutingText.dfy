/** The routing table as text (src/csp_rtable_stdio.c): entries "address[/mask] interface [via]" separated by
    commas. */
module RoutingText {
  import opened Bytes
  import R = Routing
  import A = Addresses

  /** NO_VIA as a number. */
  const NO_VIA_NUMBER := 0xFFFF
  const LOOPBACK := "LOOP"

  /** A route with its numbers and the name of its interface. */
  datatype Line = Line(address: nat, netmask: nat, name: string, via: nat)

  predicate Digit(c: char) {
    '0' <= c <= '9'
  }

  /** isspace in the C locale. */
  predicate Space(c: char) {
    c == ' ' || 9 <= c as int <= 13
  }

  function Value(c: char): nat
    requires Digit(c)
  {
    c as int - '0' as int
  }

  // ---- printing ----

  function DigitOf(d: nat): (c: char)
    requires d < 10
    ensures Digit(c) && Value(c) == d
  {
    ('0' as int + d) as char
  }

  /** %u. */
  function Dec(n: nat): (s: string)
    ensures |s| > 0 && forall i :: 0 <= i < |s| ==> Digit(s[i])
  {
    if n < 10 then [DigitOf(n)] else Dec(n / 10) + [DigitOf(n % 10)]
  }

  /** One entry as csp_rtable_save_route prints it. */
  function Print(h: nat, r: Line): string {
    Dec(r.address) + (if r.netmask != h then "/" + Dec(r.netmask) else "") + " " + r.name
    + (if r.via != NO_VIA_NUMBER then " " + Dec(r.via) else "")
  }

  // ---- scanning ----

  /** A white space directive. */
  function Skip(s: string): (r: string)
    ensures |r| <= |s|
  {
    if s != "" && Space(s[0]) then Skip(s[1..]) else s
  }

  /** The number of digits a string begins with. */
  function Digits(s: string): (n: nat)
    ensures n <= |s| && (forall i :: 0 <= i < n ==> Digit(s[i])) && (n < |s| ==> !Digit(s[n]))
  {
    if s != "" && Digit(s[0]) then 1 + Digits(s[1..]) else 0
  }

  function Decimal(s: string): nat
    requires forall i :: 0 <= i < |s| ==> Digit(s[i])
  {
    if s == "" then 0 else 10 * Decimal(s[..|s| - 1]) + Value(s[|s| - 1])
  }

  /** %u and %d: the number and what follows it. */
  function Number(s0: string): Option<(nat, string)> {
    var s := Skip(s0);
    var n := Digits(s);
    if n == 0 then None else Some((Decimal(s[..n]), s[n..]))
  }

  /** The number of characters other than white space a string begins with, up to a limit. */
  function Solid(s: string, limit: nat): (n: nat)
    ensures n <= |s| && n <= limit && forall i :: 0 <= i < n ==> !Space(s[i])
    decreases limit
  {
    if limit > 0 && s != "" && !Space(s[0]) then 1 + Solid(s[1..], limit - 1) else 0
  }

  /** %14s: the word and what follows it. */
  function Word(s0: string): Option<(string, string)> {
    var s := Skip(s0);
    var n := Solid(s, 14);
    if n == 0 then None else Some((s[..n], s[n..]))
  }

  /** "address/mask", the first two directives of the longer formats. */
  function Masked(s: string): Option<((nat, nat), string)> {
    match Number(s)
    case None => None
    case Some(a) =>
      if a.1 == "" || a.1[0] != '/' then None
      else
        match Number(a.1[1..])
        case None => None
        case Some(m) => Some(((a.0, m.0), m.1))
  }

  /** "name via" up to the position %n reports. */
  function Named(s: string): Option<((string, nat), string)> {
    match Word(s)
    case None => None
    case Some(w) =>
      match Number(w.1)
      case None => None
      case Some(v) => Some(((w.0, v.0), Skip(v.1)))
  }

  function Bare(s: string): Option<(string, string)> {
    match Word(s)
    case None => None
    case Some(w) => Some((w.0, Skip(w.1)))
  }

  /** The four formats in the order they are tried; each must use up the whole token. */
  function Scan(h: nat, s: string): Option<Line> {
    match Masked(s)
    case Some(am) =>
      (match Named(am.1)
       case Some(nv) => if nv.1 != "" then None else Some(Line(am.0.0, am.0.1, nv.0.0, nv.0.1))
       case None =>
         match Bare(am.1)
         case Some(n) => if n.1 != "" then None else Some(Line(am.0.0, am.0.1, n.0, NO_VIA_NUMBER))
         case None => Plain(h, s))
    case None => Plain(h, s)
  }

  function Plain(h: nat, s: string): Option<Line> {
    match Number(s)
    case None => None
    case Some(a) =>
      (match Named(a.1)
       case Some(nv) => if nv.1 != "" then None else Some(Line(a.0, h, nv.0.0, nv.0.1))
       case None =>
         match Bare(a.1)
         case Some(n) => if n.1 != "" then None else Some(Line(a.0, h, n.0, NO_VIA_NUMBER))
         case None => None)
  }

  /** strtok_r with a comma. */
  function Comma(s: string): (k: nat)
    ensures k <= |s| && (forall i :: 0 <= i < k ==> s[i] != ',') && (k < |s| ==> s[k] == ',')
  {
    if s == "" || s[0] == ',' then 0 else 1 + Comma(s[1..])
  }

  function Tokens(s: string): seq<string>
    decreases |s|
  {
    if s == "" then []
    else
      var k := Comma(s);
      if k == 0 then Tokens(s[1..])
      else [s[..k]] + if k == |s| then [] else Tokens(s[k + 1..])
  }

  // ---- numbers survive ----

  lemma {:induction false} DecimalDec(n: nat)
    ensures Decimal(Dec(n)) == n
  {
    if n < 10 {
      assert Dec(n)[..0] == "";
    } else {
      DecimalDec(n / 10);
      var s := Dec(n);
      assert s[..|s| - 1] == Dec(n / 10) && s[|s| - 1] == DigitOf(n % 10);
    }
  }

  lemma {:induction false} DigitsOf(a: string, b: string)
    requires forall i :: 0 <= i < |a| ==> Digit(a[i])
    requires b != "" ==> !Digit(b[0])
    ensures Digits(a + b) == |a|
  {
    if a == "" {
      assert a + b == b;
    } else {
      assert (a + b)[1..] == a[1..] + b;
      DigitsOf(a[1..], b);
    }
  }

  lemma NumberDec(n: nat, rest: string)
    requires rest != "" ==> !Digit(rest[0])
    ensures Number(Dec(n) + rest) == Some((n, rest))
  {
    hide Digits, Decimal;
    var s := Dec(n) + rest;
    assert Digit(s[0]);
    assert Skip(s) == s;
    DigitsOf(Dec(n), rest);
    assert s[..|Dec(n)|] == Dec(n) && s[|Dec(n)|..] == rest;
    DecimalDec(n);
  }

  lemma NumberAfterSpace(n: nat, rest: string)
    requires rest != "" ==> !Digit(rest[0])
    ensures Number(" " + Dec(n) + rest) == Some((n, rest))
  {
    hide Digits, Decimal, Dec;
    NumberDec(n, rest);
    var s := Dec(n) + rest;
    var t := " " + Dec(n) + rest;
    assert t[1..] == s && t[0] == ' ';
    assert Digit(s[0]);
    assert Skip(t) == Skip(s);
  }

  // ---- names survive ----

  /** A name the formats can read back: one to fourteen characters, no white space and no comma. */
  predicate WellFormed(name: string) {
    0 < |name| <= 14 && forall i :: 0 <= i < |name| ==> !Space(name[i]) && name[i] != ','
  }

  lemma {:induction false} SolidOf(a: string, b: string, limit: nat)
    requires |a| <= limit && forall i :: 0 <= i < |a| ==> !Space(a[i])
    requires b != "" ==> Space(b[0])
    ensures Solid(a + b, limit) == |a|
    decreases limit
  {
    if a == "" {
      assert a + b == b;
    } else {
      assert (a + b)[1..] == a[1..] + b;
      SolidOf(a[1..], b, limit - 1);
    }
  }

  lemma WordName(name: string, rest: string)
    requires WellFormed(name) && (rest != "" ==> Space(rest[0]))
    ensures Word(" " + name + rest) == Some((name, rest))
  {
    hide Solid;
    var s := name + rest;
    var t := " " + name + rest;
    assert t[1..] == s && t[0] == ' ' && s[0] == name[0];
    assert Skip(s) == s;
    assert Skip(t) == s;
    SolidOf(name, rest, 14);
    assert s[..|name|] == name && s[|name|..] == rest;
  }

  // ---- an entry survives ----

  predicate Printable(r: Line) {
    WellFormed(r.name)
  }

  function Tail(r: Line): string {
    " " + r.name + if r.via != NO_VIA_NUMBER then " " + Dec(r.via) else ""
  }

  lemma ScanTail(r: Line)
    requires Printable(r)
    ensures r.via != NO_VIA_NUMBER ==> Named(Tail(r)) == Some(((r.name, r.via), ""))
    ensures r.via == NO_VIA_NUMBER ==> Named(Tail(r)) == None && Bare(Tail(r)) == Some((r.name, ""))
  {
    hide Word, Number, Dec;
    if r.via != NO_VIA_NUMBER {
      var rest := " " + Dec(r.via);
      assert Tail(r) == " " + r.name + rest;
      WordName(r.name, rest);
      NumberAfterSpace(r.via, "");
      assert rest == " " + Dec(r.via) + "";
    } else {
      assert Tail(r) == " " + r.name + "";
      WordName(r.name, "");
      NumberNothing();
    }
  }

  lemma NumberNothing()
    ensures Number("") == None
  {
  }

  /** Scanning an entry that was printed gives it back. */
  lemma ScanPrint(h: nat, r: Line)
    requires Printable(r)
    ensures Scan(h, Print(h, r)) == Some(r)
  {
    hide Named, Bare, Number, Dec;
    ScanTail(r);
    var tail := Tail(r);
    if r.netmask != h {
      var rest := "/" + Dec(r.netmask) + tail;
      assert Print(h, r) == Dec(r.address) + rest;
      NumberDec(r.address, rest);
      assert rest[1..] == Dec(r.netmask) + tail;
      NumberDec(r.netmask, tail);
    } else {
      assert Print(h, r) == Dec(r.address) + tail;
      NumberDec(r.address, tail);
    }
  }

  // ---- lines and routes ----

  function Half(x: int): bv16
    requires 0 <= x < 0x1_0000
  {
    A.Address(x)
  }

  function Whole(b: bv16): (x: int)
    ensures 0 <= x < 0x1_0000
  {
    A.NumberBound(b);
    A.Number(b)
  }

  lemma HalfWhole(b: bv16)
    ensures Half(Whole(b)) == b
  {
    A.AddressNumber(b);
  }

  function LineOf(r: R.Route): Line {
    Line(Whole(r.address), r.netmask, r.iface.name, Whole(r.via))
  }

  /** strncmp up to CSP_IFLIST_NAME_MAX. */
  predicate SameName(a: string, b: string) {
    (if |a| <= 10 then a else a[..10]) == (if |b| <= 10 then b else b[..10])
  }

  /** csp_iflist_get_by_name. */
  function Lookup(ifs: seq<R.Iface>, name: string): Option<R.Iface> {
    if ifs == [] then None else if SameName(ifs[0].name, name) then Some(ifs[0]) else Lookup(ifs[1..], name)
  }

  function MaxAddress(h: nat): nat {
    if h == 5 then 31 else 0x3FFF
  }

  /** What an entry must satisfy once it has been scanned, and the route it stands for. */
  function Resolve(h: nat, ifs: seq<R.Iface>, l: Line): Option<R.Route> {
    var ifc := Lookup(ifs, l.name);
    if l.address > MaxAddress(h) || l.netmask > h || ifc.None?
       || (l.via != NO_VIA_NUMBER && l.via > MaxAddress(h)) then None
    else Some(R.Route(Half(l.address), l.netmask, ifc.value, Half(l.via)))
  }

  function Entry(h: nat, ifs: seq<R.Iface>, token: string): Option<R.Route> {
    match Scan(h, token)
    case None => None
    case Some(l) => Resolve(h, ifs, l)
  }

  // ---- loading ----

  datatype Result = Count(n: nat) | Error(status: R.Status)

  /** csp_rtable_parse without installing anything, n entries into the text. */
  function Dry(h: nat, size: nat, ifs: seq<R.Iface>, toks: seq<string>, n: nat): Result
    decreases |toks|
  {
    if toks == [] then Count(n)
    else if Entry(h, ifs, toks[0]).None? then Error(R.Inval)
    else if n + 1 > size then Error(R.NoMem)
    else Dry(h, size, ifs, toks[1..], n + 1)
  }

  /** The same, setting each route as it is read. */
  function Wet(h: nat, size: nat, ifs: seq<R.Iface>, t: seq<R.Route>, toks: seq<string>, n: nat): (seq<R.Route>, Result)
    decreases |toks|
  {
    if toks == [] then (t, Count(n))
    else
      var e := Entry(h, ifs, toks[0]);
      if e.None? then (t, Error(R.Inval))
      else if !R.Contains(t, e.value) && |t| >= size then (t, Error(R.NoMem))
      else if n + 1 > size then (R.Updated(t, e.value), Error(R.NoMem))
      else Wet(h, size, ifs, R.Updated(t, e.value), toks[1..], n + 1)
  }

  /** limit is CSP_RTABLE_STRING_MAX_LEN. */
  function Check(limit: nat, h: nat, size: nat, ifs: seq<R.Iface>, text: string): Result {
    if |text| > limit then Error(R.Inval) else Dry(h, size, ifs, Tokens(text), 0)
  }

  function Load(limit: nat, h: nat, size: nat, ifs: seq<R.Iface>, t: seq<R.Route>, text: string)
    : (seq<R.Route>, Result)
  {
    var c := Check(limit, h, size, ifs, text);
    if c.Error? then (t, c) else Wet(h, size, ifs, t, Tokens(text), 0)
  }

  lemma {:induction false} WetAfterDry(h: nat, size: nat, ifs: seq<R.Iface>, t: seq<R.Route>, toks: seq<string>, n: nat)
    requires Dry(h, size, ifs, toks, n).Count?
    ensures var w := Wet(h, size, ifs, t, toks, n);
            w.1 == Dry(h, size, ifs, toks, n) || w.1 == Error(R.NoMem)
    decreases |toks|
  {
    hide Entry;
    if toks != [] {
      WetAfterDry(h, size, ifs, R.Updated(t, Entry(h, ifs, toks[0]).value), toks[1..], n + 1);
    }
  }

  /** A string with a malformed entry, an unknown interface or a number out of range installs nothing; so does
      one that is too long or has too many entries. Loading anything else can only fail for lack of
      room in the table. */
  lemma MalformedInstallsNothing(limit: nat, h: nat, size: nat, ifs: seq<R.Iface>, t: seq<R.Route>, text: string)
    ensures var l := Load(limit, h, size, ifs, t, text);
            && (Check(limit, h, size, ifs, text).Error? ==> l == (t, Check(limit, h, size, ifs, text)))
            && (l.1 == Error(R.Inval) ==> l.0 == t && Check(limit, h, size, ifs, text) == Error(R.Inval))
            && (Check(limit, h, size, ifs, text).Count? ==>
                  l.1 == Check(limit, h, size, ifs, text) || l.1 == Error(R.NoMem))
  {
    hide Dry, Wet, Tokens;
    if Check(limit, h, size, ifs, text).Count? {
      WetAfterDry(h, size, ifs, t, Tokens(text), 0);
    }
  }

  // ---- saving and loading again ----

  /** A route that can be written down and read back on a node with these interfaces. */
  predicate Savable(h: nat, ifs: seq<R.Iface>, r: R.Route) {
    && WellFormed(r.iface.name) && Lookup(ifs, r.iface.name) == Some(r.iface)
    && Whole(r.address) <= MaxAddress(h) && r.netmask <= h
    && (Whole(r.via) == NO_VIA_NUMBER || Whole(r.via) <= MaxAddress(h))
  }

  lemma EntryPrint(h: nat, ifs: seq<R.Iface>, r: R.Route)
    requires Savable(h, ifs, r)
    ensures Entry(h, ifs, Print(h, LineOf(r))) == Some(r)
  {
    hide Scan, Print, Half, Whole, Lookup, WellFormed;
    ScanPrint(h, LineOf(r));
    HalfWhole(r.address);
    HalfWhole(r.via);
  }

  /** No loopback route is saved. */
  function Saved(t: seq<R.Route>): seq<R.Route> {
    if t == [] then []
    else
      var n := |t| - 1;
      Saved(t[..n]) + if t[n].iface.name == LOOPBACK then [] else [t[n]]
  }

  function Texts(h: nat, t: seq<R.Route>): (ts: seq<string>)
    ensures |ts| == |t| && forall i :: 0 <= i < |t| ==> ts[i] == Print(h, LineOf(t[i]))
  {
    if t == [] then [] else [Print(h, LineOf(t[0]))] + Texts(h, t[1..])
  }

  /** The entries separated by commas. */
  function Join(ts: seq<string>): string {
    if ts == [] then "" else if |ts| == 1 then ts[0] else ts[0] + "," + Join(ts[1..])
  }

  predicate NoComma(s: string) {
    s != "" && forall i :: 0 <= i < |s| ==> s[i] != ','
  }

  lemma {:induction false} CommaOf(a: string, b: string)
    requires forall i :: 0 <= i < |a| ==> a[i] != ','
    requires b != "" ==> b[0] == ','
    ensures Comma(a + b) == |a|
  {
    if a == "" {
      assert a + b == b;
    } else {
      assert (a + b)[1..] == a[1..] + b;
      CommaOf(a[1..], b);
    }
  }

  lemma {:induction false} TokensJoin(ts: seq<string>)
    requires forall i :: 0 <= i < |ts| ==> NoComma(ts[i])
    ensures Tokens(Join(ts)) == ts
    decreases |ts|
  {
    hide Comma;
    if |ts| == 1 {
      CommaOf(ts[0], "");
      assert ts[0] + "" == ts[0];
      assert ts[0][..|ts[0]|] == ts[0];
    } else if |ts| > 1 {
      var rest := "," + Join(ts[1..]);
      var all := Join(ts);
      assert all == ts[0] + rest;
      CommaOf(ts[0], rest);
      assert all[..|ts[0]|] == ts[0] && all[|ts[0]| + 1..] == Join(ts[1..]);
      TokensJoin(ts[1..]);
      assert [ts[0]] + ts[1..] == ts;
    }
  }

  lemma PrintNoComma(h: nat, l: Line)
    requires Printable(l)
    ensures NoComma(Print(h, l))
  {
    hide Dec;
    var a, m, v := Dec(l.address), Dec(l.netmask), Dec(l.via);
    assert forall i :: 0 <= i < |a| ==> Digit(a[i]);
    assert forall i :: 0 <= i < |m| ==> Digit(m[i]);
    assert forall i :: 0 <= i < |v| ==> Digit(v[i]);
  }

  lemma {:induction false} UpdatedNew(t: seq<R.Route>, e: R.Route)
    requires !R.Contains(t, e)
    ensures R.Updated(t, e) == t + [e]
    decreases |t|
  {
    if t != [] {
      assert !R.SameKey(t[0], e);
      assert forall i :: 0 <= i < |t[1..]| ==> t[1..][i] == t[i + 1];
      UpdatedNew(t[1..], e);
    }
  }

  lemma NotContained(t: seq<R.Route>, i: nat)
    requires R.Unique(t) && i < |t|
    ensures !R.Contains(t[..i], t[i])
  {
  }

  lemma {:induction false} Reload(h: nat, size: nat, ifs: seq<R.Iface>, t: seq<R.Route>, i: nat)
    requires R.Unique(t) && |t| <= size && i <= |t|
    requires forall k :: 0 <= k < |t| ==> Savable(h, ifs, t[k])
    ensures Dry(h, size, ifs, Texts(h, t[i..]), i) == Count(|t|)
    ensures Wet(h, size, ifs, t[..i], Texts(h, t[i..]), i) == (t, Count(|t|))
    decreases |t| - i
  {
    hide Entry, Print, Savable;
    var toks := Texts(h, t[i..]);
    if i == |t| {
      assert t[..i] == t;
    } else {
      EntryPrint(h, ifs, t[i]);
      assert toks[0] == Print(h, LineOf(t[i]));
      assert t[i..][1..] == t[i + 1..];
      assert toks[1..] == Texts(h, t[i + 1..]);
      NotContained(t, i);
      UpdatedNew(t[..i], t[i]);
      assert t[..i] + [t[i]] == t[..i + 1];
      Reload(h, size, ifs, t, i + 1);
    }
  }

  /** Loading what was saved into an empty table rebuilds the routes, in order, without those of the
      loopback interface, exactly when the text is within the limit on routing strings; a longer one is
      refused and installs nothing. */
  lemma RoundTrip(limit: nat, h: nat, size: nat, ifs: seq<R.Iface>, t: seq<R.Route>)
    requires R.Unique(t) && |t| <= size
    requires forall k :: 0 <= k < |t| ==> Savable(h, ifs, t[k])
    ensures var text := Join(Texts(h, Saved(t)));
            Load(limit, h, size, ifs, [], text) ==
              if |text| <= limit then (Saved(t), Count(|Saved(t)|)) else ([], Error(R.Inval))
  {
    hide Entry, Print, Savable, Join, Tokens, Dry, Wet, Saved;
    SavedKeeps(h, ifs, t);
    var s := Saved(t);
    Reload(h, size, ifs, s, 0);
    assert s[0..] == s && s[..0] == [];
    forall i | 0 <= i < |s| ensures NoComma(Texts(h, s)[i]) {
      SavableName(h, ifs, s[i]);
      PrintNoComma(h, LineOf(s[i]));
    }
    TokensJoin(Texts(h, s));
  }

  lemma SavableName(h: nat, ifs: seq<R.Iface>, r: R.Route)
    requires Savable(h, ifs, r)
    ensures Printable(LineOf(r))
  {
  }

  lemma {:induction false} SavedKeeps(h: nat, ifs: seq<R.Iface>, t: seq<R.Route>)
    requires R.Unique(t) && forall k :: 0 <= k < |t| ==> Savable(h, ifs, t[k])
    ensures R.Unique(Saved(t)) && |Saved(t)| <= |t|
    ensures forall k :: 0 <= k < |Saved(t)| ==> Savable(h, ifs, Saved(t)[k])
    ensures forall r :: r in Saved(t) ==> r in t
    decreases |t|
  {
    hide Savable;
    if t != [] {
      var n := |t| - 1;
      SavedKeeps(h, ifs, t[..n]);
      var s := Saved(t[..n]);
      forall i | 0 <= i < |s| ensures !R.SameKey(s[i], t[n]) {
        assert s[i] in s;
        var j :| 0 <= j < n && t[j] == s[i];
      }
    }
  }

  // ---- the loops ----

  /** csp_rtable_save into a buffer of maxlen bytes: every entry that fits is appended, and one that does not
      makes the whole call fail. */
  method Save(h: nat, t: seq<R.Route>, maxlen: nat) returns (r: Option<string>)
    requires maxlen > 0
    ensures r == if |Join(Texts(h, Saved(t)))| < maxlen then Some(Join(Texts(h, Saved(t)))) else None
  {
    hide Print, Join, Texts, Saved;
    var buffer := "";
    var failed := false;
    SavedNothing(h, t);
    for i := 0 to |t|
      invariant failed ==> |Join(Texts(h, Saved(t[..i])))| >= maxlen
      invariant !failed ==> buffer == Join(Texts(h, Saved(t[..i]))) && |buffer| < maxlen
      invariant (buffer == "" && !failed) ==> Saved(t[..i]) == []
    {
      SavedNext(h, t, i);
      if t[i].iface.name != LOOPBACK {
        var piece := (if |buffer| == 0 then "" else ",") + Print(h, LineOf(t[i]));
        if |piece| >= maxlen - |buffer| {
          failed := true;
        } else {
          buffer := buffer + piece;
        }
      }
    }
    assert t[..|t|] == t;
    r := if failed then None else Some(buffer);
  }

  lemma SavedNothing(h: nat, t: seq<R.Route>)
    ensures Saved(t[..0]) == [] && Join(Texts(h, Saved(t[..0]))) == ""
  {
  }

  lemma SavedNext(h: nat, t: seq<R.Route>, i: nat)
    requires i < |t|
    ensures t[i].iface.name == LOOPBACK ==> Saved(t[..i + 1]) == Saved(t[..i])
    ensures t[i].iface.name != LOOPBACK ==>
              var p := Print(h, LineOf(t[i]));
              && Saved(t[..i + 1]) == Saved(t[..i]) + [t[i]]
              && |p| > 0
              && Join(Texts(h, Saved(t[..i + 1]))) ==
                 Join(Texts(h, Saved(t[..i]))) + (if Saved(t[..i]) == [] then "" else ",") + p
    ensures Saved(t[..i]) != [] ==> Join(Texts(h, Saved(t[..i]))) != ""
  {
    hide Print, Join;
    var s := Saved(t[..i]);
    assert t[..i + 1][..i] == t[..i];
    assert s + [] == s;
    TextsAppend(h, s, t[i]);
    JoinAppend(Texts(h, s), Print(h, LineOf(t[i])));
    PrintNotEmpty(h, LineOf(t[i]));
    if s != [] {
      PrintNotEmpty(h, LineOf(s[0]));
      JoinNotEmpty(Texts(h, s));
    }
  }

  lemma PrintNotEmpty(h: nat, l: Line)
    ensures |Print(h, l)| > 0
  {
  }

  lemma JoinNotEmpty(ts: seq<string>)
    requires ts != [] && ts[0] != ""
    ensures Join(ts) != ""
  {
  }

  lemma {:induction false} TextsAppend(h: nat, s: seq<R.Route>, r: R.Route)
    ensures Texts(h, s + [r]) == Texts(h, s) + [Print(h, LineOf(r))]
  {
    hide Print;
    var a, b := Texts(h, s + [r]), Texts(h, s) + [Print(h, LineOf(r))];
    assert |a| == |b|;
    forall i | 0 <= i < |a| ensures a[i] == b[i] {
    }
  }

  lemma {:induction false} JoinAppend(ts: seq<string>, x: string)
    ensures Join(ts + [x]) == Join(ts) + (if ts == [] then "" else ",") + x
    decreases |ts|
  {
    if ts == [] {
      assert ts + [x] == [x];
    } else {
      assert (ts + [x])[1..] == ts[1..] + [x];
      JoinAppend(ts[1..], x);
      if |ts| == 1 {
        assert Join(ts[1..] + [x]) == x;
      }
    }
  }

  /** csp_rtable_check: the table is not even an argument. */
  method CheckText(limit: nat, h: nat, size: nat, ifs: seq<R.Iface>, text: string) returns (r: Result)
    ensures r == Check(limit, h, size, ifs, text)
  {
    hide Entry, Tokens;
    if |text| > limit { return Error(R.Inval); }
    var toks := Tokens(text);
    var n := 0;
    for i := 0 to |toks|
      invariant n == i && Check(limit, h, size, ifs, text) == Dry(h, size, ifs, toks[i..], n)
    {
      if Entry(h, ifs, toks[i]).None? { return Error(R.Inval); }
      n := n + 1;
      if n > size { return Error(R.NoMem); }
      assert toks[i..][1..] == toks[i + 1..];
    }
    r := Count(n);
  }

  /** csp_rtable_load into the table. */
  method LoadText(limit: nat, table: R.Table, ifs: seq<R.Iface>, text: string) returns (r: Result)
    requires table.Valid()
    modifies table
    ensures table.Valid()
    ensures (table.routes, r) == Load(limit, table.h, table.size, ifs, old(table.routes), text)
  {
    hide Entry, Tokens, R.Updated, R.Contains;
    var c := CheckText(limit, table.h, table.size, ifs, text);
    if c.Error? { return c; }
    var toks := Tokens(text);
    var n := 0;
    for i := 0 to |toks|
      invariant table.Valid() && n == i
      invariant Load(limit, table.h, table.size, ifs, old(table.routes), text) ==
                Wet(table.h, table.size, ifs, table.routes, toks[i..], n)
    {
      var e := Entry(table.h, ifs, toks[i]);
      if e.None? { return Error(R.Inval); }
      EntryMask(table.h, ifs, toks[i]);
      SetAgrees(table.h, table.size, table.routes, e.value);
      var s := table.Set(e.value.address, e.value.netmask, Some(e.value.iface), e.value.via);
      if s != R.Ok { return Error(s); }
      n := n + 1;
      if n > table.size { return Error(R.NoMem); }
      assert toks[i..][1..] == toks[i + 1..];
    }
    r := Count(n);
  }

  lemma EntryMask(h: nat, ifs: seq<R.Iface>, token: string)
    requires Entry(h, ifs, token).Some?
    ensures Entry(h, ifs, token).value.netmask <= h
  {
    hide Scan, Half;
  }

  lemma SetAgrees(h: nat, size: nat, t: seq<R.Route>, e: R.Route)
    requires e.netmask <= h
    ensures R.Entry(h, e.address, e.netmask, e.iface, e.via) == e
    ensures R.SetStatus(h, size, t, e.address, e.netmask, Some(e.iface)) ==
            if R.Contains(t, e) || |t| < size then R.Ok else R.NoMem
  {
    var k := R.Entry(h, e.address, e.netmask, e.iface, 0);
    assert R.Contains(t, k) <==> R.Contains(t, e) by {
      if R.Contains(t, k) {
        var i :| 0 <= i < |t| && R.SameKey(t[i], k);
        assert R.SameKey(t[i], e);
      }
      if R.Contains(t, e) {
        var i :| 0 <= i < |t| && R.SameKey(t[i], e);
        assert R.SameKey(t[i], k);
      }
    }
  }

  // ---- what loading can install ----

  /** A route on one of the interfaces, with an address and a next hop of h bits. */
  predicate WithinRange(h: nat, ifs: seq<R.Iface>, r: R.Route) {
    && r.iface in ifs && r.netmask <= h
    && Whole(r.address) <= (if h == 5 then 31 else 16383)
    && (Whole(r.via) == 0xFFFF || Whole(r.via) <= (if h == 5 then 31 else 16383))
  }

  /** The interface found is one of the list and has that name; none is found only when none has it. Names are
      compared up to ten characters. */
  lemma {:induction false} LookupExactly(ifs: seq<R.Iface>, name: string)
    ensures var r := Lookup(ifs, name);
            && (r.Some? ==> r.value in ifs && (|name| <= 10 && |r.value.name| <= 10 ==> r.value.name == name))
            && (r.None? ==> forall i :: 0 <= i < |ifs| ==> ifs[i].name != name)
  {
    if ifs != [] { LookupExactly(ifs[1..], name); }
  }

  lemma EntryWithinRange(h: nat, ifs: seq<R.Iface>, token: string)
    ensures Entry(h, ifs, token).Some? ==> WithinRange(h, ifs, Entry(h, ifs, token).value)
  {
    hide Scan, Half, Whole, Lookup;
    var l := Scan(h, token);
    if l.Some? {
      LookupExactly(ifs, l.value.name);
      if l.value.address < 0x1_0000 { WholeHalf(l.value.address); }
      if l.value.via < 0x1_0000 { WholeHalf(l.value.via); }
    }
  }

  lemma WholeHalf(x: int)
    requires 0 <= x < 0x1_0000
    ensures Whole(Half(x)) == x
  {
    A.NumberAddress(x);
  }

  lemma {:induction false} UpdatedFrom(t: seq<R.Route>, e: R.Route, r: R.Route)
    requires r in R.Updated(t, e)
    ensures r in t || r == e
    decreases |t|
  {
    if t != [] && !R.SameKey(t[0], e) && r != t[0] { UpdatedFrom(t[1..], e, r); }
  }

  lemma {:induction false} WetWithinRange(h: nat, size: nat, ifs: seq<R.Iface>, t: seq<R.Route>, toks: seq<string>,
                                          n: nat, r: R.Route)
    requires r in Wet(h, size, ifs, t, toks, n).0
    ensures r in t || WithinRange(h, ifs, r)
    decreases |toks|
  {
    hide Entry, R.Updated, R.Contains, WithinRange;
    if toks != [] && Entry(h, ifs, toks[0]).Some? {
      var e := Entry(h, ifs, toks[0]).value;
      var u := R.Updated(t, e);
      EntryWithinRange(h, ifs, toks[0]);
      if r in u {
        UpdatedFrom(t, e, r);
      } else if r !in t {
        WetWithinRange(h, size, ifs, u, toks[1..], n + 1, r);
      }
    }
  }

  /** Whatever the text, loading installs only routes on known interfaces whose numbers are in range. */
  lemma LoadsOnlyInRange(limit: nat, h: nat, size: nat, ifs: seq<R.Iface>, t: seq<R.Route>, text: string, r: R.Route)
    requires r in Load(limit, h, size, ifs, t, text).0
    ensures r in t || WithinRange(h, ifs, r)
  {
    hide Check, Wet, Tokens, WithinRange;
    if Check(limit, h, size, ifs, text).Count? {
      WetWithinRange(h, size, ifs, t, Tokens(text), 0, r);
    }
  }

  /** The text without its commas. */
  function WithoutCommas(s: string): string {
    if s == "" then "" else (if s[0] == ',' then "" else [s[0]]) + WithoutCommas(s[1..])
  }

  function Flat(ts: seq<string>): string {
    if ts == [] then "" else ts[0] + Flat(ts[1..])
  }

  lemma {:induction false} WithoutCommasSplit(a: string, b: string)
    requires forall i :: 0 <= i < |a| ==> a[i] != ','
    ensures WithoutCommas(a + b) == a + WithoutCommas(b)
    decreases |a|
  {
    if a == "" {
      assert a + b == b;
    } else {
      assert (a + b)[1..] == a[1..] + b;
      WithoutCommasSplit(a[1..], b);
      assert [a[0]] + (a[1..] + WithoutCommas(b)) == a + WithoutCommas(b);
    }
  }

  /** The entries of any text: none is empty or holds a comma, and together they are everything but the commas. */
  lemma {:induction false} TokensExactly(s: string)
    ensures forall i :: 0 <= i < |Tokens(s)| ==> NoComma(Tokens(s)[i])
    ensures Flat(Tokens(s)) == WithoutCommas(s)
    decreases |s|
  {
    hide Comma;
    if s != "" {
      var k := Comma(s);
      if k == 0 {
        TokensExactly(s[1..]);
        assert "" + WithoutCommas(s[1..]) == WithoutCommas(s[1..]);
      } else {
        var rest := s[k..];
        assert s == s[..k] + rest;
        WithoutCommasSplit(s[..k], rest);
        if k == |s| {
          assert rest == "";
          assert Tokens(s) == [s[..k]];
        } else {
          assert rest[1..] == s[k + 1..] && rest[0] == ',';
          TokensExactly(s[k + 1..]);
          assert WithoutCommas(rest) == "" + WithoutCommas(s[k + 1..]) == WithoutCommas(s[k + 1..]);
          assert Tokens(s) == [s[..k]] + Tokens(s[k + 1..]);
          assert Tokens(s)[1..] == Tokens(s[k + 1..]);
        }
      }
    }
  }
}
