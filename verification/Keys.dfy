/** Counter keys: what Build produces, what the algorithms append, and why two keys never collide
    except through sanitisation or the tag hash. */
module Keys {
  import opened Model
  import opened Text

  const ORDER: seq<Field> := [
    Org, Tenant, App, Service, Env, Signal, Operation, Endpoint, HttpMethod, User,
    ApiKey, Client, SourceIp, Region, Resource, Severity, Span, Topic, ConsumerGroup, JobType]

  function Name(f: Field): string {
    match f
    case Org => "org"
    case Tenant => "tenant"
    case App => "app"
    case Service => "service"
    case Env => "env"
    case Signal => "signal"
    case Operation => "operation"
    case Endpoint => "endpoint"
    case HttpMethod => "method"
    case User => "user"
    case ApiKey => "api_key"
    case Client => "client"
    case SourceIp => "source_ip"
    case Region => "region"
    case Resource => "resource"
    case Severity => "severity"
    case Span => "span"
    case Topic => "topic"
    case ConsumerGroup => "consumer_group"
    case JobType => "job_type"
  }

  // ---------------------------------------------------------------- sanitising and hashing

  function ReplaceAll(s: string, from: char, to: char): (r: string)
    ensures |r| == |s| && forall i :: 0 <= i < |s| ==> r[i] == if s[i] == from then to else s[i]
  {
    if s == "" then "" else [if s[0] == from then to else s[0]] + ReplaceAll(s[1..], from, to)
  }

  predicate Free(s: string, c: char) {
    forall i :: 0 <= i < |s| ==> s[i] != c
  }

  function Sanitize(s: string): (r: string)
    ensures r != "" && Free(r, ':') && Free(r, ' ')
  {
    var clean := ReplaceAll(ReplaceAll(s, ' ', '_'), ':', '_');
    if clean == "" then "_" else clean
  }

  /** Sanitising keeps the length and every character but spaces and colons; nothing becomes an underscore. */
  lemma SanitizeKeeps(s: string)
    ensures s == "" ==> Sanitize(s) == "_"
    ensures s != "" ==> |Sanitize(s)| == |s|
    ensures forall i :: 0 <= i < |s| ==> Sanitize(s)[i] == if s[i] == ' ' || s[i] == ':' then '_' else s[i]
  {
    var spaceless := ReplaceAll(s, ' ', '_');
    assert s != "" ==> Sanitize(s) == ReplaceAll(spaceless, ':', '_');
  }

  /** A value that sanitising leaves alone. */
  predicate Neat(s: string) {
    s != "" && Free(s, ' ') && Free(s, ':')
  }

  lemma NeatKept(s: string)
    requires Neat(s)
    ensures Sanitize(s) == s
  {
    SanitizeKeeps(s);
  }

  type Byte = n: int | 0 <= n < 256
  type Digest = d: seq<Byte> | |d| == 20 witness seq(20, _ => 0)

  function HexDigit(n: nat): char
    requires n < 16
  {
    if n < 10 then '0' + n as char else 'a' + (n - 10) as char
  }

  function Hex(bytes: seq<Byte>): (s: string)
    ensures |s| == 2 * |bytes| && Free(s, ':')
    ensures forall i :: 0 <= i < |s| ==> '0' <= s[i] <= '9' || 'a' <= s[i] <= 'f'
  {
    if bytes == [] then "" else [HexDigit(bytes[0] / 16), HexDigit(bytes[0] % 16)] + Hex(bytes[1..])
  }

  /** What a hexadecimal digit stands for. */
  function DigitValue(c: char): int {
    if '0' <= c <= '9' then c as int - '0' as int else c as int - 'a' as int + 10
  }

  /** Reads hexadecimal text two digits at a time. */
  function ParseHex(s: string): seq<int> {
    if |s| < 2 then [] else [16 * DigitValue(s[0]) + DigitValue(s[1])] + ParseHex(s[2..])
  }

  /** Printing bytes and reading them back gives the bytes. */
  lemma {:induction false} HexParses(bytes: seq<Byte>)
    ensures ParseHex(Hex(bytes)) == bytes
  {
    if bytes != [] {
      HexParses(bytes[1..]);
      assert Hex(bytes)[2..] == Hex(bytes[1..]);
      assert bytes == [bytes[0]] + bytes[1..];
    }
  }

  /** Different bytes print differently. */
  lemma HexInjective(a: seq<Byte>, b: seq<Byte>)
    requires Hex(a) == Hex(b)
    ensures a == b
  {
    HexParses(a);
    HexParses(b);
  }

  ghost predicate Least(k: string, s: set<string>) {
    k in s && forall j :: j in s ==> j == k || Less(k, j)
  }

  lemma {:induction false} LeastExists(s: set<string>)
    requires s != {}
    ensures exists k :: Least(k, s)
    decreases |s|
  {
    var x :| x in s;
    var rest := s - {x};
    if rest == {} {
      assert s == {x};
      assert Least(x, s);
    } else {
      LeastExists(rest);
      var k :| Least(k, rest);
      LessTotal(k, x);
      forall j | j in s && j != k && Less(x, k) ensures j == x || Less(x, j) {
        if j != x { LessTransitive(x, k, j); }
      }
      assert Least(k, s) || Least(x, s);
    }
  }

  /** The hashed text: the required keys in order, each with the request's value. */
  ghost function TagText(tags: map<string, string>, keys: set<string>): string
    decreases |keys|
  {
    if keys == {} then ""
    else
      LeastExists(keys);
      var k :| Least(k, keys);
      Piece(tags, k) + TagText(tags, keys - {k})
  }

  ghost function TagHash(sha1: string -> Digest, tags: map<string, string>, required: map<string, string>): (h: string)
    ensures Free(h, ':')
  {
    Hex(sha1(TagText(tags, required.Keys))[..8])
  }

  // ---------------------------------------------------------------- keys as parts

  /** One scoped dimension of a key. */
  datatype Entry = Entry(name: string, value: string)

  function Render(e: Entry): string {
    e.name + "=" + e.value
  }

  predicate Scoped(scope: Attributes, f: Field) {
    Value(scope, f) != ""
  }

  function EntryOf(req: Attributes, f: Field): Entry {
    Entry(Name(f), Sanitize(Value(req, f)))
  }

  /** The scoped fields of a list, with the request's sanitised values. */
  function FieldEntries(order: seq<Field>, scope: Attributes, req: Attributes): seq<Entry> {
    if order == [] then []
    else
      var f := order[|order| - 1];
      FieldEntries(order[..|order| - 1], scope, req) + if Scoped(scope, f) then [EntryOf(req, f)] else []
  }

  ghost function Entries(sha1: string -> Digest, scope: Attributes, req: Attributes): seq<Entry> {
    FieldEntries(ORDER, scope, req)
      + if |scope.tags| > 0 then [Entry("tags", TagHash(sha1, req.tags, scope.tags))] else []
  }

  /** Each part preceded by a colon. */
  function Colons(parts: seq<string>): string {
    if parts == [] then "" else ":" + parts[0] + Colons(parts[1..])
  }

  function RenderAll(es: seq<Entry>): seq<string> {
    if es == [] then [] else [Render(es[0])] + RenderAll(es[1..])
  }

  /** strings.Join of the prefix and the rendered entries. */
  ghost function BuildKey(prefix: string, sha1: string -> Digest, scope: Attributes, req: Attributes): string {
    prefix + Colons(RenderAll(Entries(sha1, scope, req)))
  }

  /** What each algorithm appends. */
  datatype Suffix =
    | FixedWindow(start: int) | Quota(start: int) | SlidingCounter(start: int)
    | TokenLevel | TokenTime | LeakyLevel | LeakyTime | SlidingLog | Concurrency

  function SuffixParts(s: Suffix): seq<string> {
    match s
    case FixedWindow(t) => [Decimal(t)]
    case Quota(t) => ["quota", Decimal(t)]
    case SlidingCounter(t) => ["swc", Decimal(t)]
    case TokenLevel => ["tb", "tokens"]
    case TokenTime => ["tb", "ts"]
    case LeakyLevel => ["lb", "level"]
    case LeakyTime => ["lb", "ts"]
    case SlidingLog => ["swl"]
    case Concurrency => ["concurrency"]
  }

  ghost function FullKey(prefix: string, sha1: string -> Digest, scope: Attributes, req: Attributes,
                         s: Suffix): string {
    BuildKey(prefix, sha1, scope, req) + Colons(SuffixParts(s))
  }

  lemma WindowSuffixText(t: int)
    ensures Colons(SuffixParts(FixedWindow(t))) == ":" + Decimal(t)
    ensures Colons(SuffixParts(Quota(t))) == ":quota:" + Decimal(t)
    ensures Colons(SuffixParts(SlidingCounter(t))) == ":swc:" + Decimal(t)
  {
    ColonsOne(Decimal(t));
    ColonsTwo("quota", Decimal(t));
    ColonsTwo("swc", Decimal(t));
    assert ":quota:" == ":" + "quota" + ":" && ":swc:" == ":" + "swc" + ":";
  }

  lemma FixedSuffixText()
    ensures Colons(SuffixParts(TokenLevel)) == ":tb:tokens" && Colons(SuffixParts(TokenTime)) == ":tb:ts"
    ensures Colons(SuffixParts(LeakyLevel)) == ":lb:level" && Colons(SuffixParts(LeakyTime)) == ":lb:ts"
    ensures Colons(SuffixParts(SlidingLog)) == ":swl" && Colons(SuffixParts(Concurrency)) == ":concurrency"
  {
    ColonsTwo("tb", "tokens");
    ColonsTwo("tb", "ts");
    ColonsTwo("lb", "level");
    ColonsTwo("lb", "ts");
    ColonsOne("swl");
    ColonsOne("concurrency");
  }

  /** The keys the evaluators write, from the limit key they are given, are the full keys. */
  lemma StoreKeys(prefix: string, sha1: string -> Digest, scope: Attributes, req: Attributes, start: int)
    ensures var key := BuildKey(prefix, sha1, scope, req);
            && FullKey(prefix, sha1, scope, req, FixedWindow(start)) == key + ":" + Decimal(start)
            && FullKey(prefix, sha1, scope, req, Quota(start)) == key + ":quota:" + Decimal(start)
            && FullKey(prefix, sha1, scope, req, SlidingCounter(start)) == key + ":swc:" + Decimal(start)
            && FullKey(prefix, sha1, scope, req, TokenLevel) == key + ":tb:tokens"
            && FullKey(prefix, sha1, scope, req, TokenTime) == key + ":tb:ts"
            && FullKey(prefix, sha1, scope, req, LeakyLevel) == key + ":lb:level"
            && FullKey(prefix, sha1, scope, req, LeakyTime) == key + ":lb:ts"
            && FullKey(prefix, sha1, scope, req, SlidingLog) == key + ":swl"
            && FullKey(prefix, sha1, scope, req, Concurrency) == key + ":concurrency"
  {
    var key := BuildKey(prefix, sha1, scope, req);
    WindowSuffixText(start);
    FixedSuffixText();
    Regroup(key, ":", Decimal(start));
    Regroup(key, ":quota:", Decimal(start));
    Regroup(key, ":swc:", Decimal(start));
  }

  lemma ColonsOne(p: string)
    ensures Colons([p]) == ":" + p
  {
    assert [p][1..] == [];
  }

  lemma ColonsTwo(p: string, q: string)
    ensures Colons([p, q]) == ":" + p + ":" + q
  {
    ColonsOne(q);
    assert [p, q][1..] == [q];
    assert ":" + p + (":" + q) == ":" + p + ":" + q;
  }

  // ---------------------------------------------------------------- unique decoding

  predicate AllFree(parts: seq<string>, c: char) {
    forall i :: 0 <= i < |parts| ==> Free(parts[i], c)
  }

  lemma ShorterCut(a: string, x: string, b: string, y: string, c: char)
    requires a + x == b + y && |a| < |b| && (x == "" || x[0] == c)
    ensures b[|a|] == c
  {
    assert b[|a|] == (b + y)[|a|] == (a + x)[|a|];
  }

  /** Two c-free strings before a c, or before the end, are equal when the whole texts are. */
  lemma CutUnique(a: string, x: string, b: string, y: string, c: char)
    requires Free(a, c) && Free(b, c) && a + x == b + y
    requires (x == "" || x[0] == c) && (y == "" || y[0] == c)
    ensures a == b && x == y
  {
    if |a| < |b| {
      ShorterCut(a, x, b, y, c);
    } else if |b| < |a| {
      ShorterCut(b, y, a, x, c);
    } else {
      assert a == (a + x)[..|a|] == (b + y)[..|b|] == b;
      assert x == (a + x)[|a|..] == (b + y)[|b|..] == y;
    }
  }

  /** A colon-separated text determines its colon-free parts. */
  lemma {:induction false} ColonsInjective(a: seq<string>, b: seq<string>)
    requires AllFree(a, ':') && AllFree(b, ':') && Colons(a) == Colons(b)
    ensures a == b
  {
    if a != [] && b != [] {
      assert a[0] + Colons(a[1..]) == Colons(a)[1..] && b[0] + Colons(b[1..]) == Colons(b)[1..];
      CutUnique(a[0], Colons(a[1..]), b[0], Colons(b[1..]), ':');
      ColonsInjective(a[1..], b[1..]);
      assert a == [a[0]] + a[1..] && b == [b[0]] + b[1..];
    }
  }

  lemma {:induction false} ColonsConcat(a: seq<string>, b: seq<string>)
    ensures Colons(a + b) == Colons(a) + Colons(b)
  {
    if a == [] {
      assert a + b == b;
    } else {
      ColonsConcat(a[1..], b);
      assert (a + b)[1..] == a[1..] + b;
    }
  }

  /** Parts with an equals sign followed by parts without: the boundary is determined. */
  lemma {:induction false} BoundaryUnique(a: seq<string>, x: seq<string>, b: seq<string>, y: seq<string>)
    requires a + x == b + y
    requires forall i :: 0 <= i < |a| ==> !Free(a[i], '=')
    requires forall i :: 0 <= i < |b| ==> !Free(b[i], '=')
    requires AllFree(x, '=') && AllFree(y, '=')
    ensures a == b && x == y
  {
    if |a| < |b| {
      BoundaryBefore(a, x, b, y);
    } else if |b| < |a| {
      BoundaryBefore(b, y, a, x);
    } else {
      assert a == (a + x)[..|a|] == (b + y)[..|b|] == b;
      assert x == (a + x)[|a|..] == (b + y)[|b|..] == y;
    }
  }

  lemma BoundaryBefore(a: seq<string>, x: seq<string>, b: seq<string>, y: seq<string>)
    requires a + x == b + y && |a| < |b| && AllFree(x, '=')
    ensures Free(b[|a|], '=')
  {
    assert b[|a|] == (b + y)[|a|] == (a + x)[|a|] == x[0];
  }

  predicate NamesFree(es: seq<Entry>) {
    forall i :: 0 <= i < |es| ==> Free(es[i].name, '=')
  }

  lemma {:induction false} RenderInjective(a: seq<Entry>, b: seq<Entry>)
    requires NamesFree(a) && NamesFree(b) && RenderAll(a) == RenderAll(b)
    ensures a == b
  {
    if a != [] && b != [] {
      assert Render(a[0]) == RenderAll(a)[0] == RenderAll(b)[0] == Render(b[0]);
      assert Render(a[0]) == a[0].name + ("=" + a[0].value) && Render(b[0]) == b[0].name + ("=" + b[0].value);
      CutUnique(a[0].name, "=" + a[0].value, b[0].name, "=" + b[0].value, '=');
      assert a[0].value == ("=" + a[0].value)[1..] == ("=" + b[0].value)[1..] == b[0].value;
      assert RenderAll(a[1..]) == RenderAll(a)[1..] && RenderAll(b[1..]) == RenderAll(b)[1..];
      RenderInjective(a[1..], b[1..]);
      assert a == [a[0]] + a[1..] && b == [b[0]] + b[1..];
    }
  }

  // ---------------------------------------------------------------- the entries of a key

  lemma NameFree(f: Field)
    ensures Plain(Name(f)) && Name(f) != "tags"
  {
    NameNoColon(f);
    NameNoEquals(f);
  }

  lemma NameNoColon(f: Field)
    ensures Free(Name(f), ':')
  {
  }

  lemma NameNoEquals(f: Field)
    ensures Free(Name(f), '=')
  {
  }

  /** Length and first letter tell the names apart. */
  function Code(f: Field): int {
    |Name(f)| * 1000 + if Name(f) == "" then 0 else Name(f)[0] as int
  }

  lemma NameInjective(f: Field, g: Field)
    requires Name(f) == Name(g)
    ensures f == g
  {
    assert Code(f) == Code(g);
  }

  lemma OrderComplete(f: Field) returns (i: nat)
    ensures i < |ORDER| && ORDER[i] == f
  {
    i := match f
      case Org => 0
      case Tenant => 1
      case App => 2
      case Service => 3
      case Env => 4
      case Signal => 5
      case Operation => 6
      case Endpoint => 7
      case HttpMethod => 8
      case User => 9
      case ApiKey => 10
      case Client => 11
      case SourceIp => 12
      case Region => 13
      case Resource => 14
      case Severity => 15
      case Span => 16
      case Topic => 17
      case ConsumerGroup => 18
      case JobType => 19;
  }

  predicate Yields(order: seq<Field>, scope: Attributes, req: Attributes, f: Field, e: Entry) {
    f in order && Scoped(scope, f) && e == EntryOf(req, f)
  }

  /** The entries hold exactly the scoped fields, each with its sanitised value. */
  lemma {:induction false} FieldEntriesExact(order: seq<Field>, scope: Attributes, req: Attributes, e: Entry)
    ensures e in FieldEntries(order, scope, req) <==> exists f :: Yields(order, scope, req, f, e)
  {
    if order != [] {
      var init, last := order[..|order| - 1], order[|order| - 1];
      FieldEntriesExact(init, scope, req, e);
      assert order == init + [last];
      if e in FieldEntries(init, scope, req) {
        var f :| Yields(init, scope, req, f, e);
        assert Yields(order, scope, req, f, e);
      } else if Scoped(scope, last) && e == EntryOf(req, last) {
        assert Yields(order, scope, req, last, e);
      } else {
        assert forall f :: Yields(order, scope, req, f, e) ==> f == last || Yields(init, scope, req, f, e);
      }
    }
  }

  /** A field's entry is in the key exactly when the scope names the field, and with that value only. */
  lemma EntryFor(sha1: string -> Digest, scope: Attributes, req: Attributes, f: Field, v: string)
    ensures Entry(Name(f), v) in Entries(sha1, scope, req) <==> Scoped(scope, f) && v == Sanitize(Value(req, f))
  {
    var e, fields := Entry(Name(f), v), FieldEntries(ORDER, scope, req);
    FieldEntriesExact(ORDER, scope, req, e);
    NameFree(f);
    var i := OrderComplete(f);
    assert f in ORDER;
    assert e in Entries(sha1, scope, req) <==> e in fields;
    if e in fields {
      var g :| Yields(ORDER, scope, req, g, e);
      NameInjective(f, g);
    } else {
      assert !Yields(ORDER, scope, req, f, e);
    }
  }

  lemma EntryForTags(sha1: string -> Digest, scope: Attributes, req: Attributes, v: string)
    ensures Entry("tags", v) in Entries(sha1, scope, req) <==>
            |scope.tags| > 0 && v == TagHash(sha1, req.tags, scope.tags)
  {
    var e := Entry("tags", v);
    FieldEntriesExact(ORDER, scope, req, e);
    if e in FieldEntries(ORDER, scope, req) {
      var g :| Yields(ORDER, scope, req, g, e);
      NameFree(g);
    }
  }

  predicate Clean(e: Entry) {
    Free(e.name, '=') && Free(e.name, ':') && Free(e.value, ':')
  }

  lemma EntriesClean(sha1: string -> Digest, scope: Attributes, req: Attributes)
    ensures forall i :: 0 <= i < |Entries(sha1, scope, req)| ==> Clean(Entries(sha1, scope, req)[i])
  {
    var es := Entries(sha1, scope, req);
    forall i | 0 <= i < |es| ensures Clean(es[i]) {
      FieldEntriesExact(ORDER, scope, req, es[i]);
      if es[i] in FieldEntries(ORDER, scope, req) {
        var g :| Yields(ORDER, scope, req, g, es[i]);
        NameFree(g);
      }
    }
  }

  lemma {:induction false} RenderedClean(es: seq<Entry>)
    requires forall i :: 0 <= i < |es| ==> Clean(es[i])
    ensures AllFree(RenderAll(es), ':')
    ensures forall i :: 0 <= i < |RenderAll(es)| ==> !Free(RenderAll(es)[i], '=')
  {
    if es != [] {
      RenderedClean(es[1..]);
      var r := Render(es[0]);
      assert r[|es[0].name|] == '=';
    }
  }

  lemma SuffixClean(s: Suffix)
    ensures SuffixParts(s) != [] && AllFree(SuffixParts(s), ':') && AllFree(SuffixParts(s), '=')
  {
    WordsClean();
  }

  lemma WordsClean()
    ensures Plain("quota") && Plain("swc") && Plain("tb") && Plain("tokens") && Plain("ts")
    ensures Plain("lb") && Plain("level") && Plain("swl") && Plain("concurrency")
  {
  }

  predicate Plain(s: string) {
    Free(s, ':') && Free(s, '=')
  }

  lemma SuffixInjective(s: Suffix, t: Suffix)
    requires SuffixParts(s) == SuffixParts(t)
    ensures s == t
  {
    var a, b := SuffixParts(s), SuffixParts(t);
    assert a[0] == b[0] && a[|a| - 1] == b[|b| - 1];
    assert s.FixedWindow? ==> a[0][0] == '-' || '0' <= a[0][0] <= '9';
    assert t.FixedWindow? ==> b[0][0] == '-' || '0' <= b[0][0] <= '9';
    if (s.FixedWindow? && t.FixedWindow?) || (s.Quota? && t.Quota?) || (s.SlidingCounter? && t.SlidingCounter?) {
      DecimalInjective(s.start, t.start);
    }
  }

  lemma Cancel(p: string, u: string, v: string)
    requires p + u == p + v
    ensures u == v
  {
    assert u == (p + u)[|p|..] && v == (p + v)[|p|..];
  }

  lemma Regroup(p: string, u: string, v: string)
    ensures p + u + v == p + (u + v)
  {
  }

  lemma TextUnique(prefix: string, a: seq<string>, x: seq<string>, b: seq<string>, y: seq<string>)
    requires AllFree(a, ':') && AllFree(b, ':') && AllFree(x, ':') && AllFree(y, ':')
    requires prefix + Colons(a) + Colons(x) == prefix + Colons(b) + Colons(y)
    ensures a + x == b + y
  {
    assert Colons(a + x) == Colons(b + y) by {
      ColonsConcat(a, x);
      ColonsConcat(b, y);
      Regroup(prefix, Colons(a), Colons(x));
      Regroup(prefix, Colons(b), Colons(y));
      Cancel(prefix, Colons(a + x), Colons(b + y));
    }
    FreeConcat(a, x, ':');
    FreeConcat(b, y, ':');
    ColonsInjective(a + x, b + y);
  }

  lemma FreeConcat(a: seq<string>, b: seq<string>, c: char)
    requires AllFree(a, c) && AllFree(b, c)
    ensures AllFree(a + b, c)
  {
  }

  /** Equal keys have the same entries and the same suffix. */
  lemma PartsUnique(prefix: string, es: seq<Entry>, s: Suffix, es': seq<Entry>, s': Suffix)
    requires forall i :: 0 <= i < |es| ==> Clean(es[i])
    requires forall i :: 0 <= i < |es'| ==> Clean(es'[i])
    requires prefix + Colons(RenderAll(es)) + Colons(SuffixParts(s)) ==
             prefix + Colons(RenderAll(es')) + Colons(SuffixParts(s'))
    ensures es == es' && s == s'
  {
    var a, b, x, y := RenderAll(es), RenderAll(es'), SuffixParts(s), SuffixParts(s');
    RenderedClean(es);
    RenderedClean(es');
    SuffixClean(s);
    SuffixClean(s');
    TextUnique(prefix, a, x, b, y);
    BoundaryUnique(a, x, b, y);
    RenderInjective(es, es');
    SuffixInjective(s, s');
  }

  /** Store keys are uniquely decodable: for one prefix, two full keys are equal only if they scope the
      same fields with the same sanitised values, carry tags both or neither with the same hash, and end
      in the same algorithm and window. */
  lemma KeysUnique(prefix: string, sha1: string -> Digest, scope: Attributes, req: Attributes, s: Suffix,
                   scope': Attributes, req': Attributes, s': Suffix)
    requires FullKey(prefix, sha1, scope, req, s) == FullKey(prefix, sha1, scope', req', s')
    ensures s == s'
    ensures forall f :: Scoped(scope, f) <==> Scoped(scope', f)
    ensures forall f :: Scoped(scope, f) ==> Sanitize(Value(req, f)) == Sanitize(Value(req', f))
    ensures |scope.tags| > 0 <==> |scope'.tags| > 0
    ensures |scope.tags| > 0 ==> TagHash(sha1, req.tags, scope.tags) == TagHash(sha1, req'.tags, scope'.tags)
  {
    EntriesClean(sha1, scope, req);
    EntriesClean(sha1, scope', req');
    PartsUnique(prefix, Entries(sha1, scope, req), s, Entries(sha1, scope', req'), s');
    forall f
      ensures Scoped(scope, f) <==> Scoped(scope', f)
      ensures Scoped(scope, f) ==> Sanitize(Value(req, f)) == Sanitize(Value(req', f))
    {
      var v, v' := Sanitize(Value(req, f)), Sanitize(Value(req', f));
      EntryFor(sha1, scope, req, f, v);
      EntryFor(sha1, scope', req', f, v);
      EntryFor(sha1, scope, req, f, v');
      EntryFor(sha1, scope', req', f, v');
    }
    var h, h' := TagHash(sha1, req.tags, scope.tags), TagHash(sha1, req'.tags, scope'.tags);
    EntryForTags(sha1, scope, req, h);
    EntryForTags(sha1, scope', req', h);
    EntryForTags(sha1, scope, req, h');
    EntryForTags(sha1, scope', req', h');
  }

  lemma {:induction false} FieldEntriesSame(order: seq<Field>, scope: Attributes, req: Attributes,
                                            scope': Attributes, req': Attributes)
    requires forall f :: Scoped(scope, f) <==> Scoped(scope', f)
    requires forall f :: Scoped(scope, f) ==> Sanitize(Value(req, f)) == Sanitize(Value(req', f))
    ensures FieldEntries(order, scope, req) == FieldEntries(order, scope', req')
  {
    if order != [] { FieldEntriesSame(order[..|order| - 1], scope, req, scope', req'); }
  }

  /** Exactly then: the two keys are equal if and only if all of this is. */
  lemma KeysEqualIff(prefix: string, sha1: string -> Digest, scope: Attributes, req: Attributes, s: Suffix,
                     scope': Attributes, req': Attributes, s': Suffix)
    ensures FullKey(prefix, sha1, scope, req, s) == FullKey(prefix, sha1, scope', req', s') <==>
      && s == s'
      && (forall f :: Scoped(scope, f) <==> Scoped(scope', f))
      && (forall f :: Scoped(scope, f) ==> Sanitize(Value(req, f)) == Sanitize(Value(req', f)))
      && (|scope.tags| > 0 <==> |scope'.tags| > 0)
      && (|scope.tags| > 0 ==> TagHash(sha1, req.tags, scope.tags) == TagHash(sha1, req'.tags, scope'.tags))
  {
    if FullKey(prefix, sha1, scope, req, s) == FullKey(prefix, sha1, scope', req', s') {
      KeysUnique(prefix, sha1, scope, req, s, scope', req', s');
    } else if (forall f :: Scoped(scope, f) <==> Scoped(scope', f))
            && (forall f :: Scoped(scope, f) ==> Sanitize(Value(req, f)) == Sanitize(Value(req', f))) {
      FieldEntriesSame(ORDER, scope, req, scope', req');
    }
  }

  /** So two requests whose values of a scoped field are neat and differ never share a key, whatever the policies,
      algorithms and windows. */
  lemma ValuesTellKeys(prefix: string, sha1: string -> Digest, scope: Attributes, req: Attributes, s: Suffix,
                       scope': Attributes, req': Attributes, s': Suffix, f: Field)
    requires Value(scope, f) != "" && Neat(Value(req, f)) && Neat(Value(req', f)) && Value(req, f) != Value(req', f)
    ensures FullKey(prefix, sha1, scope, req, s) != FullKey(prefix, sha1, scope', req', s')
  {
    NeatKept(Value(req, f));
    NeatKept(Value(req', f));
    KeysEqualIff(prefix, sha1, scope, req, s, scope', req', s');
    assert Scoped(scope, f);
  }

  /** Nor do policies of which only one scopes the field. */
  lemma FieldsTellKeys(prefix: string, sha1: string -> Digest, scope: Attributes, req: Attributes, s: Suffix,
                       scope': Attributes, req': Attributes, s': Suffix, f: Field)
    requires Value(scope, f) != "" && Value(scope', f) == ""
    ensures FullKey(prefix, sha1, scope, req, s) != FullKey(prefix, sha1, scope', req', s')
  {
    KeysEqualIff(prefix, sha1, scope, req, s, scope', req', s');
    assert Scoped(scope, f) && !Scoped(scope', f);
  }

  // ---------------------------------------------------------------- tags

  lemma LeastUnique(k: string, j: string, s: set<string>)
    requires Least(k, s) && Least(j, s)
    ensures k == j
  {
    LessTotal(k, j);
  }

  function Piece(tags: map<string, string>, k: string): string {
    k + "=" + Tag(tags, k) + ";"
  }

  lemma TagTextStep(tags: map<string, string>, keys: set<string>, k: string)
    requires Least(k, keys)
    ensures TagText(tags, keys) == Piece(tags, k) + TagText(tags, keys - {k})
  {
    var j :| Least(j, keys) && TagText(tags, keys) == Piece(tags, j) + TagText(tags, keys - {j});
    LeastUnique(k, j, keys);
  }

  /** Names without an equals sign, values without a semicolon. */
  predicate TagsPlain(tags: map<string, string>, keys: set<string>) {
    forall k :: k in keys ==> Free(k, '=') && Free(Tag(tags, k), ';')
  }

  lemma PieceThen(tags: map<string, string>, k: string, rest: string)
    ensures Piece(tags, k) + rest == k + ("=" + (Tag(tags, k) + (";" + rest)))
  {
  }

  lemma PiecesUnique(a: map<string, string>, j: string, x: string, b: map<string, string>, k: string, y: string)
    requires Free(j, '=') && Free(k, '=') && Free(Tag(a, j), ';') && Free(Tag(b, k), ';')
    requires Piece(a, j) + x == Piece(b, k) + y
    ensures j == k && Tag(a, j) == Tag(b, k) && x == y
  {
    PieceThen(a, j, x);
    PieceThen(b, k, y);
    var u, v := Tag(a, j) + (";" + x), Tag(b, k) + (";" + y);
    CutUnique(j, "=" + u, k, "=" + v, '=');
    Cancel("=", u, v);
    CutUnique(Tag(a, j), ";" + x, Tag(b, k), ";" + y, ';');
    Cancel(";", x, y);
  }

  lemma TagTextEmpty(tags: map<string, string>, keys: set<string>)
    ensures TagText(tags, keys) == "" <==> keys == {}
  {
    if keys != {} {
      LeastExists(keys);
      var k :| Least(k, keys);
      TagTextStep(tags, keys, k);
    }
  }

  /** The hashed text determines the required names and the request's values of them. */
  lemma {:induction false} TagTextInjective(a: map<string, string>, ks: set<string>, b: map<string, string>,
                                            ls: set<string>)
    requires TagsPlain(a, ks) && TagsPlain(b, ls) && TagText(a, ks) == TagText(b, ls)
    ensures ks == ls && forall k :: k in ks ==> Tag(a, k) == Tag(b, k)
    decreases |ks|
  {
    TagTextEmpty(a, ks);
    TagTextEmpty(b, ls);
    if ks != {} {
      LeastExists(ks);
      LeastExists(ls);
      var j :| Least(j, ks);
      var k :| Least(k, ls);
      TagTextStep(a, ks, j);
      TagTextStep(b, ls, k);
      PiecesUnique(a, j, TagText(a, ks - {j}), b, k, TagText(b, ls - {k}));
      TagTextInjective(a, ks - {j}, b, ls - {k});
      assert ks == (ks - {j}) + {j} && ls == (ls - {k}) + {k};
    }
  }

  /** Policies with tags: two requests whose required tags differ, in name or value, share a key only if the
      digests of two different texts begin with the same eight bytes. */
  lemma TagsTellKeys(prefix: string, sha1: string -> Digest, scope: Attributes, req: Attributes, s: Suffix,
                     scope': Attributes, req': Attributes, s': Suffix)
    requires |scope.tags| > 0 && TagsPlain(req.tags, scope.tags.Keys) && TagsPlain(req'.tags, scope'.tags.Keys)
    requires scope.tags.Keys != scope'.tags.Keys || exists k :: k in scope.tags && Tag(req.tags, k) != Tag(req'.tags, k)
    requires FullKey(prefix, sha1, scope, req, s) == FullKey(prefix, sha1, scope', req', s')
    ensures var u, v := TagText(req.tags, scope.tags.Keys), TagText(req'.tags, scope'.tags.Keys);
            u != v && sha1(u)[..8] == sha1(v)[..8]
  {
    KeysUnique(prefix, sha1, scope, req, s, scope', req', s');
    var u, v := TagText(req.tags, scope.tags.Keys), TagText(req'.tags, scope'.tags.Keys);
    HexInjective(sha1(u)[..8], sha1(v)[..8]);
    if u == v { TagTextInjective(req.tags, scope.tags.Keys, req'.tags, scope'.tags.Keys); }
  }

  // ---------------------------------------------------------------- the code

  /** strings.Join with ":". */
  function Join(parts: seq<string>): string
    requires parts != []
  {
    parts[0] + Colons(parts[1..])
  }

  /** Visits the required keys in sorted order. */
  method HashTags(sha1: string -> Digest, reqTags: map<string, string>, required: map<string, string>)
    returns (h: string)
    ensures h == TagHash(sha1, reqTags, required)
  {
    var rest := required.Keys;
    var text := "";
    while rest != {}
      invariant text + TagText(reqTags, rest) == TagText(reqTags, required.Keys)
      decreases |rest|
    {
      LeastExists(rest);
      var k :| k in rest && forall j :: j in rest ==> j == k || Less(k, j);
      TagTextStep(reqTags, rest, k);
      Regroup(text, Piece(reqTags, k), TagText(reqTags, rest - {k}));
      text := text + Piece(reqTags, k);
      rest := rest - {k};
    }
    assert text + "" == text;
    h := Hex(sha1(text)[..8]);
  }

  lemma {:induction false} RenderSnoc(es: seq<Entry>, e: Entry)
    ensures RenderAll(es + [e]) == RenderAll(es) + [Render(e)]
  {
    if es == [] {
      assert [e][1..] == [];
    } else {
      assert (es + [e])[1..] == es[1..] + [e];
      RenderSnoc(es[1..], e);
    }
  }

  /** One part per scoped field, in order. */
  method FieldParts(order: seq<Field>, scope: Attributes, req: Attributes) returns (parts: seq<string>)
    ensures parts == RenderAll(FieldEntries(order, scope, req))
  {
    parts := [];
    for i := 0 to |order|
      invariant parts == RenderAll(FieldEntries(order[..i], scope, req))
    {
      var f := order[i];
      assert order[..i + 1][..i] == order[..i];
      if Value(scope, f) != "" {
        RenderSnoc(FieldEntries(order[..i], scope, req), EntryOf(req, f));
        parts := parts + [Name(f) + "=" + Sanitize(Value(req, f))];
      } else {
        assert FieldEntries(order[..i + 1], scope, req) == FieldEntries(order[..i], scope, req);
      }
    }
    assert order[..|order|] == order;
  }

  method Build(prefix: string, sha1: string -> Digest, scope: Attributes, req: Attributes) returns (key: string)
    ensures key == BuildKey(prefix, sha1, scope, req)
  {
    var fields := FieldParts(ORDER, scope, req);
    var parts := [prefix] + fields;
    if |scope.tags| > 0 {
      var h := HashTags(sha1, req.tags, scope.tags);
      RenderSnoc(FieldEntries(ORDER, scope, req), Entry("tags", h));
      assert "tags" + "=" + h == "tags=" + h;
      parts := parts + ["tags=" + h];
      assert parts[1..] == fields + [Render(Entry("tags", h))];
    } else {
      assert parts[1..] == fields;
      assert Entries(sha1, scope, req) == FieldEntries(ORDER, scope, req);
    }
    key := Join(parts);
  }
}
