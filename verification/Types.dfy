/** The values every other module speaks about: text, instances, events and the selection context. */
module Types {

  datatype Option<+T> = None | Some(value: T)

  /** A string is its bytes; equality, containment and hashing all work on those. */
  type Text = seq<bv8>

  type Port = p: nat | p < 0x1_0000

  datatype Endpoint = Endpoint(address: Text, port: Port, scheme: Option<Text>)

  const DIGITS: Text := [48, 49, 50, 51, 52, 53, 54, 55, 56, 57]

  function Decimal(n: nat): Text {
    if n < 10 then [DIGITS[n]] else Decimal(n / 10) + [DIGITS[n % 10]]
  }

  const COLON: bv8 := 58

  function SchemeOf(e: Endpoint, defaultScheme: Text): Text {
    match e.scheme case Some(s) => s case None => defaultScheme
  }

  /** The string "{scheme}://{address}:{port}". */
  function ToUrl(e: Endpoint, defaultScheme: Text): Text {
    SchemeOf(e, defaultScheme) + [COLON, 47, 47] + e.address + [COLON] + Decimal(e.port)
  }

  datatype ServiceInstance = ServiceInstance(
    serviceId: Text,
    namespace: Text,
    group: Text,
    name: Text,
    http: Option<Endpoint>,
    grpc: Option<Endpoint>,
    endpoints: map<Text, Endpoint>,
    metadata: map<Text, Text>,
    weight: real,
    enabled: bool,
    healthy: bool)

  datatype ServiceEvent =
    | Upsert(inst: ServiceInstance)
    | Delete(serviceName: Text, serviceId: Text)
    | Reset(all: seq<ServiceInstance>)

  datatype SelectContext = SelectContext(
    serviceName: Text,
    clientIp: Option<Text>,
    requiredTag: Option<(Text, Text)>,
    key: Option<Text>)

  lemma DigitsDistinct(a: nat, b: nat)
    requires a < 10 && b < 10 && DIGITS[a] == DIGITS[b]
    ensures a == b
  {
  }

  lemma {:induction false} DecimalIsDigits(n: nat)
    ensures |Decimal(n)| > 0 && forall i :: 0 <= i < |Decimal(n)| ==> Decimal(n)[i] in DIGITS
  {
    if n >= 10 {
      DecimalIsDigits(n / 10);
    }
  }

  lemma {:induction false} DecimalInjective(a: nat, b: nat)
    requires Decimal(a) == Decimal(b)
    ensures a == b
  {
    var s := Decimal(a);
    var last := |s| - 1;
    if a >= 10 {
      DecimalIsDigits(a / 10);
    }
    if b >= 10 {
      DecimalIsDigits(b / 10);
    }
    assert s[last] == DIGITS[a % 10] == DIGITS[b % 10];
    DigitsDistinct(a % 10, b % 10);
    if a >= 10 {
      assert s[..last] == Decimal(a / 10) && s[..last] == Decimal(b / 10);
      DecimalInjective(a / 10, b / 10);
    }
  }

  /** The number a text of decimal digits stands for, read from the left. */
  function ReadDecimal(s: Text): nat {
    if s == [] then 0 else
    ReadDecimal(s[..|s| - 1]) * 10 + (if s[|s| - 1] < 48 then 0 else (s[|s| - 1] - 48) as nat)
  }

  lemma DigitValue(d: nat)
    requires d < 10
    ensures DIGITS[d] >= 48 && (DIGITS[d] - 48) as nat == d
  {
  }

  /** Decimal digits read back as the number. */
  lemma {:induction false} DecimalReadsBack(n: nat)
    ensures ReadDecimal(Decimal(n)) == n
  {
    DigitValue(n % 10);
    var s := Decimal(n);
    if n < 10 {
      assert s[..0] == [];
    } else {
      DecimalReadsBack(n / 10);
      assert s[..|s| - 1] == Decimal(n / 10);
    }
  }

  /** A URL starts with the endpoint's own scheme if it has one, else with the default, and ends in its
    * port. */
  lemma UrlShape(e: Endpoint, defaultScheme: Text)
    ensures e.scheme.Some? ==> e.scheme.value + [58, 47, 47] + e.address + [58] <= ToUrl(e, defaultScheme)
    ensures e.scheme.None? ==> defaultScheme + [58, 47, 47] + e.address + [58] <= ToUrl(e, defaultScheme)
    ensures var port := |ToUrl(e, defaultScheme)| - |Decimal(e.port)|;
            port >= 0 && ReadDecimal(ToUrl(e, defaultScheme)[port..]) == e.port
  {
    DecimalReadsBack(e.port);
    var front := SchemeOf(e, defaultScheme) + [COLON, 47, 47] + e.address + [COLON];
    assert ToUrl(e, defaultScheme) == front + Decimal(e.port);
    assert (front + Decimal(e.port))[|front|..] == Decimal(e.port);
  }

  lemma {:induction false} LastMarkSplits(s: Text, x: Text, t: Text, y: Text, mark: bv8)
    requires mark !in x && mark !in y && s + [mark] + x == t + [mark] + y
    ensures s == t && x == y
    decreases |x|
  {
    var whole := s + [mark] + x;
    var last := |whole| - 1;
    assert x != [] ==> whole[last] == x[|x| - 1];
    assert y != [] ==> whole[last] == y[|y| - 1];
    if x == [] || y == [] {
      assert whole[..last] == s && whole[..last] == t;
    } else {
      var x', y' := x[..|x| - 1], y[..|y| - 1];
      assert whole[..last] == s + [mark] + x' && whole[..last] == t + [mark] + y';
      LastMarkSplits(s, x', t, y', mark);
      assert x == x' + [whole[last]] && y == y' + [whole[last]];
    }
  }

  /** A number behind a separator that is no digit can be told from what precedes it. */
  lemma NumberedInjective(s: Text, a: nat, t: Text, b: nat, mark: bv8)
    requires mark !in DIGITS && s + [mark] + Decimal(a) == t + [mark] + Decimal(b)
    ensures s == t && a == b
  {
    hide Decimal;
    DecimalIsDigits(a);
    DecimalIsDigits(b);
    LastMarkSplits(s, Decimal(a), t, Decimal(b), mark);
    DecimalInjective(a, b);
  }

  /** A text without the mark in front of one is told apart from what follows. */
  lemma FirstMarkSplits(s: Text, x: Text, t: Text, y: Text, mark: bv8)
    requires mark !in s && mark !in t && s + [mark] + x == t + [mark] + y
    ensures s == t && x == y
  {
    var whole := s + [mark] + x;
    assert whole == t + [mark] + y;
    assert whole[|s|] == mark && whole[|t|] == mark;
    assert forall i :: 0 <= i < |s| ==> whole[i] == s[i] && whole[i] in s;
    assert forall i :: 0 <= i < |t| ==> whole[i] == t[i] && whole[i] in t;
    assert |s| == |t|;
    assert whole[..|s|] == s && whole[..|t|] == t;
    assert whole[|s| + 1..] == x && whole[|t| + 1..] == y;
  }

  /** Two URLs are equal exactly when port and "{scheme}://{address}" are; for schemes without a colon,
    * exactly when scheme, address and port are. */
  lemma UrlDeterminesEndpoint(e: Endpoint, f: Endpoint, defaultScheme: Text)
    ensures ToUrl(e, defaultScheme) == ToUrl(f, defaultScheme)
            <==> && e.port == f.port
                 && SchemeOf(e, defaultScheme) + [COLON, 47, 47] + e.address
                    == SchemeOf(f, defaultScheme) + [COLON, 47, 47] + f.address
    ensures COLON !in SchemeOf(e, defaultScheme) && COLON !in SchemeOf(f, defaultScheme) ==>
              (ToUrl(e, defaultScheme) == ToUrl(f, defaultScheme)
               <==> && SchemeOf(e, defaultScheme) == SchemeOf(f, defaultScheme)
                    && e.address == f.address && e.port == f.port)
  {
    var s, t := SchemeOf(e, defaultScheme), SchemeOf(f, defaultScheme);
    if ToUrl(e, defaultScheme) == ToUrl(f, defaultScheme) {
      NumberedInjective(s + [COLON, 47, 47] + e.address, e.port, t + [COLON, 47, 47] + f.address, f.port, COLON);
      if COLON !in s && COLON !in t {
        assert s + [COLON] + ([47, 47] + e.address) == s + [COLON, 47, 47] + e.address;
        assert t + [COLON] + ([47, 47] + f.address) == t + [COLON, 47, 47] + f.address;
        FirstMarkSplits(s, [47, 47] + e.address, t, [47, 47] + f.address, COLON);
        assert ([47, 47] + e.address)[2..] == e.address && ([47, 47] + f.address)[2..] == f.address;
      }
    }
  }

  ghost predicate DistinctIds(list: seq<ServiceInstance>) {
    forall i, j :: 0 <= i < j < |list| ==> list[i].serviceId != list[j].serviceId
  }

  function IdSet(list: seq<ServiceInstance>): set<Text> {
    set i | 0 <= i < |list| :: list[i].serviceId
  }

  function Ids(list: seq<ServiceInstance>): (ids: seq<Text>)
    ensures |ids| == |list|
    ensures forall i :: 0 <= i < |list| ==> ids[i] == list[i].serviceId
  {
    seq(|list|, i requires 0 <= i < |list| => list[i].serviceId)
  }
}
