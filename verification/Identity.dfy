/** Agent identity: the tagged-text parser, the fingerprint preimage and its hex rendering. */
module Identity {
  import opened Common

  // ---------- splitting text ----------

  /** Position of the first c in s, or |s| when there is none (std::string::find). */
  function IndexOf(s: string, c: char): (k: nat)
    ensures k <= |s|
    ensures c !in s[..k]
    ensures k < |s| ==> s[k] == c
  {
    if s == [] || s[0] == c then 0 else 1 + IndexOf(s[1..], c)
  }

  /** The tokens that repeated std::getline calls deliver; a trailing separator adds no empty token. */
  function Tokens(s: string, sep: char): (ts: seq<string>)
    ensures forall t :: t in ts ==> sep !in t
  {
    if s == [] then []
    else
      var k := IndexOf(s, sep);
      if k == |s| then [s] else [s[..k]] + Tokens(s[k + 1..], sep)
  }

  function Join(ts: seq<string>, sep: char): string
  {
    if ts == [] then []
    else if |ts| == 1 then ts[0]
    else ts[0] + [sep] + Join(ts[1..], sep)
  }

  /** The first separator of p + [sep] + r ends p, whatever follows. */
  lemma {:induction false} FirstSeparator(p: string, sep: char, r: string)
    requires sep !in p
    ensures IndexOf(p + [sep] + r, sep) == |p|
  {
    if p != [] {
      FirstSeparator(p[1..], sep, r);
      assert (p + [sep] + r)[1..] == p[1..] + [sep] + r;
    }
  }

  lemma NoSeparator(p: string, sep: char)
    requires sep !in p
    ensures IndexOf(p, sep) == |p|
  {
  }

  lemma {:induction false} TokensOfJoin(ts: seq<string>, sep: char)
    requires forall t :: t in ts ==> sep !in t
    requires ts != [] ==> ts[|ts| - 1] != []
    ensures Tokens(Join(ts, sep), sep) == ts
  {
    if ts == [] {
    } else if |ts| == 1 {
      NoSeparator(ts[0], sep);
    } else {
      var rest := Join(ts[1..], sep);
      FirstSeparator(ts[0], sep, rest);
      TokensOfJoin(ts[1..], sep);
      var s := ts[0] + [sep] + rest;
      assert s[..|ts[0]|] == ts[0];
      assert s[|ts[0]| + 1..] == rest;
    }
  }

  /** Joining separator-free fields loses nothing. */
  lemma {:induction false} JoinInjective(a: seq<string>, b: seq<string>, sep: char)
    requires |a| == |b|
    requires forall t :: t in a ==> sep !in t
    requires forall t :: t in b ==> sep !in t
    requires Join(a, sep) == Join(b, sep)
    ensures a == b
  {
    if |a| >= 2 {
      var ra, rb := Join(a[1..], sep), Join(b[1..], sep);
      FirstSeparator(a[0], sep, ra);
      FirstSeparator(b[0], sep, rb);
      var s := a[0] + [sep] + ra;
      assert s == b[0] + [sep] + rb;
      assert s[..|a[0]|] == a[0] && s[..|b[0]|] == b[0];
      assert s[|a[0]| + 1..] == ra && s[|b[0]| + 1..] == rb;
      JoinInjective(a[1..], b[1..], sep);
    }
  }

  // ---------- the identity card ----------

  /** The twelve keys the parser knows. */
  datatype Field =
    | AgentId | AgentName | Class | Owner | OwnerTitle | Namespace
    | Status | GenesisTime | Mission | Lineage | MissionHash | PulseHash

  function KeyOf(f: Field): string
  {
    match f
    case AgentId => "AGENT_ID"
    case AgentName => "AGENT_NAME"
    case Class => "CLASS"
    case Owner => "OWNER"
    case OwnerTitle => "OWNER_TITLE"
    case Namespace => "IDENTITY"
    case Status => "STATUS"
    case GenesisTime => "TIME"
    case Mission => "MISSION"
    case Lineage => "LINEAGE"
    case MissionHash => "MISSION_HASH"
    case PulseHash => "PURPOSE_PULSE_HASH"
  }

  /** All fields, in the order in which the shipped identity texts list their keys. */
  const DATA_ORDER := [AgentId, AgentName, Class, Owner, OwnerTitle, Namespace, Status, GenesisTime,
                       Mission, Lineage, MissionHash, PulseHash]

  function FieldNamed(key: string, among: seq<Field>): Option<Field>
  {
    if among == [] then None
    else if KeyOf(among[0]) == key then Some(among[0])
    else FieldNamed(key, among[1..])
  }

  datatype Card = Card(
    id: string, name: string, agentClass: string, owner: string, ownerTitle: string,
    identityHash: string, status: string, genesisTime: string, mission: string,
    lineage: string, missionHash: string, pulseHash: string)
  {
    function Get(f: Field): string
    {
      match f
      case AgentId => id
      case AgentName => name
      case Class => agentClass
      case Owner => owner
      case OwnerTitle => ownerTitle
      case Namespace => identityHash
      case Status => status
      case GenesisTime => genesisTime
      case Mission => mission
      case Lineage => lineage
      case MissionHash => missionHash
      case PulseHash => pulseHash
    }

    function Set(f: Field, val: string): Card
    {
      match f
      case AgentId => this.(id := val)
      case AgentName => this.(name := val)
      case Class => this.(agentClass := val)
      case Owner => this.(owner := val)
      case OwnerTitle => this.(ownerTitle := val)
      case Namespace => this.(identityHash := val)
      case Status => this.(status := val)
      case GenesisTime => this.(genesisTime := val)
      case Mission => this.(mission := val)
      case Lineage => this.(lineage := val)
      case MissionHash => this.(missionHash := val)
      case PulseHash => this.(pulseHash := val)
    }

    /** The field a key names is overwritten; an unknown key changes nothing. */
    function Assign(key: string, val: string): Card
    {
      match FieldNamed(key, DATA_ORDER)
      case None => this
      case Some(f) => Set(f, val)
    }

    /** A token without a colon is skipped; the first colon ends the key. */
    function Read(token: string): Card
    {
      var k := IndexOf(token, ':');
      if k == |token| then this else Assign(token[..k], token[k + 1..])
    }

    function ReadAll(tokens: seq<string>): Card
    {
      if tokens == [] then this
      else ReadAll(tokens[..|tokens| - 1]).Read(tokens[|tokens| - 1])
    }

    function WithDefaults(): Card
    {
      this.(lineage := if lineage == "" then "ROOT" else lineage,
            missionHash := if missionHash == "" then ZERO_HASH else missionHash,
            pulseHash := if pulseHash == "" then ZERO_HASH else pulseHash)
    }

    /** The seven fields that make up the identity, in preimage order. */
    function IdentityFields(): seq<string>
    {
      [id, name, owner, identityHash, genesisTime, lineage, mission]
    }

    function Preimage(): string
    {
      id + "|" + name + "|" + owner + "|" + identityHash + "|" + genesisTime + "|" + lineage + "|" + mission
    }
  }

  /** Text that cannot be taken for two tokens. */
  type BarFree = s: string | '|' !in s

  // Longer literals are written in pieces.
  const ZEROS_1: BarFree := "0x0000000000000000000000000000000"
  const ZEROS_2: BarFree := "000000000000000000000000000000000"
  const ZERO_HASH: BarFree := ZEROS_1 + ZEROS_2
  const BLANK := Card("", "", "", "", "", "", "", "", "", "", "", "")

  function Parse(agentData: string): Card
  {
    BLANK.ReadAll(Tokens(agentData, '|')).WithDefaults()
  }

  /** Different fields have different keys. */
  lemma KeysDiffer(f: Field, g: Field)
    ensures KeyOf(f) == KeyOf(g) ==> f == g
  {
  }

  // ---------- what the parser computes ----------

  /** The value after the colon of the last token whose key is the given one. */
  function LastValue(tokens: seq<string>, key: string): Option<string>
  {
    if tokens == [] then None
    else
      var last := tokens[|tokens| - 1];
      var k := IndexOf(last, ':');
      if k < |last| && last[..k] == key then Some(last[k + 1..])
      else LastValue(tokens[..|tokens| - 1], key)
  }

  /** Every field holds the value of the last token that names it: later duplicates win, tokens
      without a colon and unknown keys are ignored. */
  lemma {:induction false} FieldIsLastValue(c: Card, tokens: seq<string>, f: Field)
    ensures c.ReadAll(tokens).Get(f)
         == match LastValue(tokens, KeyOf(f)) { case None => c.Get(f) case Some(v) => v }
  {
    hide KeyOf, Card.Get, Card.Assign;
    if tokens != [] {
      var front, last := tokens[..|tokens| - 1], tokens[|tokens| - 1];
      FieldIsLastValue(c, front, f);
      var k := IndexOf(last, ':');
      if k < |last| {
        AssignSetsOne(c.ReadAll(front), last[..k], last[k + 1..], f);
      }
    }
  }

  lemma DataOrderComplete()
    ensures forall f :: f in DATA_ORDER
    ensures forall i, j :: 0 <= i < j < |DATA_ORDER| ==> DATA_ORDER[i] != DATA_ORDER[j]
  {
    forall f: Field ensures f in DATA_ORDER {
      var i := match f
        case AgentId => 0 case AgentName => 1 case Class => 2 case Owner => 3 case OwnerTitle => 4
        case Namespace => 5 case Status => 6 case GenesisTime => 7 case Mission => 8 case Lineage => 9
        case MissionHash => 10 case PulseHash => 11;
      assert DATA_ORDER[i] == f;
    }
  }

  /** The key table is a bijection between fields and their keys. */
  lemma {:induction false} FieldNamedIff(key: string, among: seq<Field>, f: Field)
    ensures FieldNamed(key, among) == Some(f) <==> f in among && KeyOf(f) == key
  {
    if among != [] {
      FieldNamedIff(key, among[1..], f);
      KeysDiffer(among[0], f);
    }
  }

  lemma AssignSetsOne(c: Card, key: string, val: string, f: Field)
    ensures c.Assign(key, val).Get(f) == if key == KeyOf(f) then val else c.Get(f)
  {
    DataOrderComplete();
    assert f in DATA_ORDER;
    FieldNamedIff(key, DATA_ORDER, f);
    var found := FieldNamed(key, DATA_ORDER);
    if found.Some? {
      SetIsLocal(c, found.value, val, f);
    }
  }

  lemma SetIsLocal(c: Card, g: Field, val: string, f: Field)
    ensures c.Set(g, val).Get(f) == if f == g then val else c.Get(f)
  {
  }

  lemma CardsEqual(a: Card, b: Card)
    requires forall f :: a.Get(f) == b.Get(f)
    ensures a == b
  {
    assert a.Get(AgentId) == b.Get(AgentId) && a.Get(AgentName) == b.Get(AgentName) && a.Get(Class) == b.Get(Class);
    assert a.Get(Owner) == b.Get(Owner) && a.Get(OwnerTitle) == b.Get(OwnerTitle);
    assert a.Get(Namespace) == b.Get(Namespace) && a.Get(Status) == b.Get(Status);
    assert a.Get(GenesisTime) == b.Get(GenesisTime) && a.Get(Mission) == b.Get(Mission);
    assert a.Get(Lineage) == b.Get(Lineage) && a.Get(MissionHash) == b.Get(MissionHash);
    assert a.Get(PulseHash) == b.Get(PulseHash);
  }

  // ---------- printing and reading back ----------

  datatype Entry = Entry(key: string, val: string)
  {
    function Text(): string { key + ":" + val }

    ghost predicate Printable() { ':' !in key && '|' !in key && '|' !in val }
  }

  function Texts(entries: seq<Entry>): (ts: seq<string>)
    ensures |ts| == |entries|
    ensures forall i :: 0 <= i < |ts| ==> ts[i] == entries[i].Text()
  {
    seq(|entries|, i requires 0 <= i < |entries| => entries[i].Text())
  }

  function Print(entries: seq<Entry>): string { Join(Texts(entries), '|') }

  function LastEntry(entries: seq<Entry>, key: string): Option<string>
  {
    if entries == [] then None
    else if entries[|entries| - 1].key == key then Some(entries[|entries| - 1].val)
    else LastEntry(entries[..|entries| - 1], key)
  }

  /** Parsing printed entries gives each field the value of its last entry (values may contain ':'),
      with the parser's defaults for what is missing. */
  lemma ParseOfPrint(entries: seq<Entry>, f: Field)
    requires forall e :: e in entries ==> e.Printable()
    ensures BLANK.ReadAll(Tokens(Print(entries), '|')).Get(f)
         == match LastEntry(entries, KeyOf(f)) { case None => "" case Some(v) => v }
  {
    BlankField(f);
    hide *;
    TokensOfPrint(entries);
    FieldIsLastValue(BLANK, Texts(entries), f);
    LastValueOfTexts(entries, KeyOf(f));
  }

  lemma BlankField(f: Field)
    ensures BLANK.Get(f) == ""
  {
  }

  lemma TokensOfPrint(entries: seq<Entry>)
    requires forall e :: e in entries ==> e.Printable()
    ensures Tokens(Print(entries), '|') == Texts(entries)
  {
    var ts := Texts(entries);
    forall t | t in ts ensures '|' !in t && t != [] {
      var i :| 0 <= i < |ts| && ts[i] == t;
      assert entries[i] in entries;
    }
    hide Tokens, Join;
    TokensOfJoin(ts, '|');
  }

  lemma {:induction false} LastValueOfTexts(entries: seq<Entry>, key: string)
    requires forall e :: e in entries ==> e.Printable()
    ensures LastValue(Texts(entries), key) == LastEntry(entries, key)
  {
    if entries != [] {
      var n := |entries| - 1;
      var e := entries[n];
      assert e in entries;
      assert e.Text() == e.key + [':'] + e.val;
      FirstSeparator(e.key, ':', e.val);
      assert e.Text()[..|e.key|] == e.key && e.Text()[|e.key| + 1..] == e.val;
      assert Texts(entries)[..n] == Texts(entries[..n]);
      LastValueOfTexts(entries[..n], key);
    }
  }

  ghost predicate DistinctKeys(entries: seq<Entry>)
  {
    forall i, j :: 0 <= i < j < |entries| ==> entries[i].key != entries[j].key
  }

  lemma {:induction false} LastEntryIsMembership(entries: seq<Entry>, key: string, val: string)
    requires DistinctKeys(entries)
    ensures LastEntry(entries, key) == Some(val) <==> Entry(key, val) in entries
  {
    if entries != [] {
      var n := |entries| - 1;
      assert entries == entries[..n] + [entries[n]];
      LastEntryIsMembership(entries[..n], key, val);
    }
  }

  /** The order of distinct keys does not matter. */
  lemma ReorderingKeepsIdentity(a: seq<Entry>, b: seq<Entry>)
    requires forall e :: e in a ==> e.Printable()
    requires DistinctKeys(a) && DistinctKeys(b)
    requires forall e :: e in a <==> e in b
    ensures Parse(Print(a)) == Parse(Print(b))
  {
    var ca, cb := BLANK.ReadAll(Tokens(Print(a), '|')), BLANK.ReadAll(Tokens(Print(b), '|'));
    forall f ensures ca.Get(f) == cb.Get(f) {
      ParseOfPrint(a, f);
      ParseOfPrint(b, f);
      var la, lb := LastEntry(a, KeyOf(f)), LastEntry(b, KeyOf(f));
      if la.Some? {
        LastEntryIsMembership(a, KeyOf(f), la.value);
        LastEntryIsMembership(b, KeyOf(f), la.value);
      }
      if lb.Some? {
        LastEntryIsMembership(a, KeyOf(f), lb.value);
        LastEntryIsMembership(b, KeyOf(f), lb.value);
      }
    }
    CardsEqual(ca, cb);
  }

  function EntriesOf(c: Card, order: seq<Field>): (es: seq<Entry>)
    ensures |es| == |order|
    ensures forall i :: 0 <= i < |es| ==> es[i] == Entry(KeyOf(order[i]), c.Get(order[i]))
  {
    seq(|order|, i requires 0 <= i < |order| => Entry(KeyOf(order[i]), c.Get(order[i])))
  }

  /** Round trip: a card printed in any order of its twelve keys reads back as itself, with defaults. */
  lemma RoundTrip(c: Card, order: seq<Field>)
    requires forall f :: '|' !in c.Get(f)
    requires forall f :: f in order
    requires forall i, j :: 0 <= i < j < |order| ==> order[i] != order[j]
    ensures Parse(Print(EntriesOf(c, order))) == c.WithDefaults()
  {
    var es := EntriesOf(c, order);
    KeysPlain();
    forall i, j | 0 <= i < j < |es| ensures es[i].key != es[j].key {
      KeysDiffer(order[i], order[j]);
    }
    var r := BLANK.ReadAll(Tokens(Print(es), '|'));
    forall f ensures r.Get(f) == c.Get(f) {
      assert f in order;
      var i :| 0 <= i < |order| && order[i] == f;
      assert es[i] in es;
      LastEntryIsMembership(es, KeyOf(f), c.Get(f));
      ParseOfPrint(es, f);
    }
    CardsEqual(r, c);
  }

  lemma KeysPlain()
    ensures forall f :: ':' !in KeyOf(f) && '|' !in KeyOf(f)
  {
    forall f ensures ':' !in KeyOf(f) && '|' !in KeyOf(f) {
      KeyPlain(f);
    }
  }

  lemma KeyPlain(f: Field)
    ensures ':' !in KeyOf(f) && '|' !in KeyOf(f)
  {
  }

  // ---------- the preimage ----------

  lemma ReadOneKeepsBarFree(c: Card, token: string)
    requires (forall f :: '|' !in c.Get(f)) && '|' !in token
    ensures forall f :: '|' !in c.Read(token).Get(f)
  {
    var k := IndexOf(token, ':');
    hide Card.Assign, Card.Get;
    if k < |token| {
      forall f ensures '|' !in c.Read(token).Get(f) {
        AssignSetsOne(c, token[..k], token[k + 1..], f);
      }
    }
  }

  lemma {:induction false} ReadKeepsBarFree(c: Card, tokens: seq<string>)
    requires forall f :: '|' !in c.Get(f)
    requires forall t :: t in tokens ==> '|' !in t
    ensures forall f :: '|' !in c.ReadAll(tokens).Get(f)
  {
    hide Card.Get, Card.Read;
    if tokens != [] {
      var front, last := tokens[..|tokens| - 1], tokens[|tokens| - 1];
      ReadKeepsBarFree(c, front);
      assert last in tokens;
      ReadOneKeepsBarFree(c.ReadAll(front), last);
    }
  }

  /** No parsed field contains the separator. */
  lemma ParsedFieldsBarFree(agentData: string)
    ensures forall t :: t in Parse(agentData).IdentityFields() ==> '|' !in t
  {
    var ts := Tokens(agentData, '|');
    ReadKeepsBarFree(BLANK, ts);
    var c := BLANK.ReadAll(ts);
    assert '|' !in c.Get(AgentId) && '|' !in c.Get(AgentName) && '|' !in c.Get(Owner) && '|' !in c.Get(Namespace);
    assert '|' !in c.Get(GenesisTime) && '|' !in c.Get(Lineage) && '|' !in c.Get(Mission);
  }

  lemma {:induction false} JoinSnoc(ts: seq<string>, t: string, sep: char)
    requires ts != []
    ensures Join(ts + [t], sep) == Join(ts, sep) + [sep] + t
  {
    assert (ts + [t])[1..] == ts[1..] + [t];
    if |ts| > 1 {
      JoinSnoc(ts[1..], t, sep);
    }
  }

  lemma PreimageIsJoin(c: Card)
    ensures c.Preimage() == Join(c.IdentityFields(), '|')
  {
    assert [c.id] + [c.name] == [c.id, c.name];
    assert [c.id, c.name] + [c.owner] == [c.id, c.name, c.owner];
    assert [c.id, c.name, c.owner] + [c.identityHash] == [c.id, c.name, c.owner, c.identityHash];
    JoinSnoc([c.id], c.name, '|');
    JoinSnoc([c.id, c.name], c.owner, '|');
    JoinSnoc([c.id, c.name, c.owner], c.identityHash, '|');
    var fs := [c.id, c.name, c.owner, c.identityHash, c.genesisTime];
    assert [c.id, c.name, c.owner, c.identityHash] + [c.genesisTime] == fs;
    assert fs + [c.lineage] + [c.mission] == c.IdentityFields();
    JoinSnoc([c.id, c.name, c.owner, c.identityHash], c.genesisTime, '|');
    JoinSnoc(fs, c.lineage, '|');
    JoinSnoc(fs + [c.lineage], c.mission, '|');
  }

  /** The separator does its job: two parsed identities have equal preimages exactly when all seven
      identity fields agree. */
  lemma PreimageInjective(a: string, b: string)
    ensures Parse(a).Preimage() == Parse(b).Preimage() <==> Parse(a).IdentityFields() == Parse(b).IdentityFields()
  {
    ParsedFieldsBarFree(a);
    ParsedFieldsBarFree(b);
    PreimageIsJoin(Parse(a));
    PreimageIsJoin(Parse(b));
    if Parse(a).Preimage() == Parse(b).Preimage() {
      JoinInjective(Parse(a).IdentityFields(), Parse(b).IdentityFields(), '|');
    }
  }

  // ---------- the fingerprint ----------

  newtype byte = x: int | 0 <= x < 256

  /** What the hash library returns: 32 bytes, about which nothing else is known. */
  type Digest = d: seq<byte> | |d| == 32 witness seq(32, i => 0)

  const HEX_DIGITS := "0123456789abcdef"

  /** std::hex output of an integer: no leading zeros. */
  function HexInt(n: nat): string
  {
    if n < 16 then [HEX_DIGITS[n]] else HexInt(n / 16) + [HEX_DIGITS[n % 16]]
  }

  /** std::setw(2) with std::setfill('0'). */
  function Pad2(s: string): string
  {
    if |s| == 0 then "00" else if |s| == 1 then "0" + s else s
  }

  function HexPair(b: byte): string { Pad2(HexInt(b as nat)) }

  /** The rendering loop: one pair of digits per byte. */
  function HexBytes(d: seq<byte>): string
  {
    Concat(seq(|d|, i requires 0 <= i < |d| => HexPair(d[i])))
  }

  lemma HexByteShape(b: byte)
    ensures HexPair(b) == [HEX_DIGITS[b as nat / 16], HEX_DIGITS[b as nat % 16]]
  {
    var n := b as nat;
    if n >= 16 {
      assert HexInt(n / 16) == [HEX_DIGITS[n / 16]];
    } else {
      assert HEX_DIGITS[0] == '0' && n / 16 == 0 && n % 16 == n;
    }
  }

  lemma HexDigitsDiffer(i: nat, j: nat)
    requires i < 16 && j < 16 && HEX_DIGITS[i] == HEX_DIGITS[j]
    ensures i == j
  {
  }

  lemma HexByteInjective(a: byte, b: byte)
    requires HexPair(a) == HexPair(b)
    ensures a == b
  {
    HexByteShape(a);
    HexByteShape(b);
    var x, y := a as nat, b as nat;
    assert [HEX_DIGITS[x / 16], HEX_DIGITS[x % 16]][0] == [HEX_DIGITS[y / 16], HEX_DIGITS[y % 16]][0];
    assert [HEX_DIGITS[x / 16], HEX_DIGITS[x % 16]][1] == [HEX_DIGITS[y / 16], HEX_DIGITS[y % 16]][1];
    HexDigitsDiffer(x / 16, y / 16);
    HexDigitsDiffer(x % 16, y % 16);
  }

  lemma {:induction false} ConcatInjective(ps: seq<string>, qs: seq<string>)
    requires |ps| == |qs| && Concat(ps) == Concat(qs)
    requires (forall p :: p in ps ==> |p| == 2) && (forall q :: q in qs ==> |q| == 2)
    ensures ps == qs
  {
    if ps != [] {
      var s := Concat(ps);
      assert ps[0] == s[..2] == qs[0] && Concat(ps[1..]) == s[2..] == Concat(qs[1..]);
      ConcatInjective(ps[1..], qs[1..]);
      assert ps == [ps[0]] + ps[1..] && qs == [qs[0]] + qs[1..];
    }
  }

  /** Two-digit rendering is injective on byte strings of one length. */
  lemma HexInjective(a: seq<byte>, b: seq<byte>)
    requires |a| == |b| && HexBytes(a) == HexBytes(b)
    ensures a == b
  {
    var ps := seq(|a|, i requires 0 <= i < |a| => HexPair(a[i]));
    var qs := seq(|b|, i requires 0 <= i < |b| => HexPair(b[i]));
    forall i | 0 <= i < |a| ensures |ps[i]| == 2 && |qs[i]| == 2 {
      HexByteShape(a[i]);
      HexByteShape(b[i]);
    }
    ConcatInjective(ps, qs);
    forall i | 0 <= i < |a| ensures a[i] == b[i] {
      assert ps[i] == qs[i];
      HexByteInjective(a[i], b[i]);
    }
  }

  function Sha256Hex(input: string, digest: string -> Digest): string
  {
    "0x" + HexBytes(digest(input))
  }

  function Fingerprint(agentData: string, digest: string -> Digest): string
  {
    Sha256Hex(Parse(agentData).Preimage(), digest)
  }

  /** Fingerprints agree exactly when the identities agree, unless the digest itself collides on the
      two preimages. */
  lemma FingerprintIsIdentity(a: string, b: string, digest: string -> Digest)
    ensures Fingerprint(a, digest) == Fingerprint(b, digest)
       <==> || Parse(a).IdentityFields() == Parse(b).IdentityFields()
            || (&& Parse(a).Preimage() != Parse(b).Preimage()
                && digest(Parse(a).Preimage()) == digest(Parse(b).Preimage()))
  {
    PreimageInjective(a, b);
    var da, db := digest(Parse(a).Preimage()), digest(Parse(b).Preimage());
    if HexBytes(da) == HexBytes(db) {
      HexInjective(da, db);
    }
    assert Fingerprint(a, digest)[2..] == HexBytes(da) && Fingerprint(b, digest)[2..] == HexBytes(db);
  }

  /** The separator works only because the parser strips it from fields: joined as they are, fields that
      contain it can collide. */
  lemma UnparsedFieldsCanCollide()
    ensures exists a: Card, b: Card ::
              a.IdentityFields() != b.IdentityFields() && a.Preimage() == b.Preimage()
  {
    var a, b := BLANK.(id := "|"), BLANK.(name := "|");
    assert a.Preimage() == b.Preimage();
    assert a.IdentityFields()[0] != b.IdentityFields()[0];
  }

  // ---------- a parsed text in full ----------

  /** The token gives the key a value. */
  ghost predicate Gives(token: string, key: string) { key + ":" <= token }

  lemma GivenToken(token: string, key: string)
    requires ':' !in key && Gives(token, key)
    ensures IndexOf(token, ':') == |key| < |token| && token[..|key|] == key
    ensures token == key + ":" + token[|key| + 1..]
  {
    var rest := token[|key| + 1..];
    assert token == key + [':'] + rest;
    FirstSeparator(key, ':', rest);
    hide IndexOf;
  }

  lemma KeyOfToken(token: string, key: string)
    requires ':' !in key
    ensures var k := IndexOf(token, ':'); k < |token| && token[..k] == key <==> Gives(token, key)
    ensures Gives(token, key) ==> IndexOf(token, ':') == |key| && token == key + ":" + token[|key| + 1..]
  {
    hide IndexOf;
    var k := IndexOf(token, ':');
    if k < |token| && token[..k] == key {
      assert token[..k + 1] == key + ":";
    }
    if Gives(token, key) {
      GivenToken(token, key);
    }
  }

  /** The value of a key is what follows the colon in the last token that gives it one. */
  lemma {:induction false} LastValueIs(tokens: seq<string>, key: string)
    requires ':' !in key
    ensures LastValue(tokens, key).None? <==> forall i :: 0 <= i < |tokens| ==> !Gives(tokens[i], key)
    ensures LastValue(tokens, key).Some? ==>
              exists i :: 0 <= i < |tokens| && tokens[i] == key + ":" + LastValue(tokens, key).value
                          && forall j :: i < j < |tokens| ==> !Gives(tokens[j], key)
  {
    if tokens != [] {
      var n := |tokens| - 1;
      var front := tokens[..n];
      LastValueIs(front, key);
      KeyOfToken(tokens[n], key);
      hide IndexOf, Gives;
      assert forall i :: 0 <= i < n ==> front[i] == tokens[i];
      if !Gives(tokens[n], key) {
        if LastValue(front, key).Some? {
          var i :| 0 <= i < n && front[i] == key + ":" + LastValue(front, key).value
                   && forall j :: i < j < n ==> !Gives(front[j], key);
          assert tokens[i] == key + ":" + LastValue(tokens, key).value;
          assert forall j :: i < j < n ==> front[j] == tokens[j];
        }
      } else {
        assert tokens[n] == key + ":" + LastValue(tokens, key).value;
      }
    }
  }

  /** What a text says for a key; nothing if it does not mention it. */
  function ValueIn(agentData: string, key: string): string
  {
    match LastValue(Tokens(agentData, '|'), key) case None => "" case Some(v) => v
  }

  function OrElse(text: string, fallback: string): string { if text == "" then fallback else text }

  /** Every field of a parsed text under its own key, with the root as the lineage and zero hashes where the text gives
      none. */
  lemma ParsedFields(agentData: string)
    ensures var c := Parse(agentData);
            && c.id == ValueIn(agentData, "AGENT_ID") && c.name == ValueIn(agentData, "AGENT_NAME")
            && c.agentClass == ValueIn(agentData, "CLASS") && c.owner == ValueIn(agentData, "OWNER")
            && c.ownerTitle == ValueIn(agentData, "OWNER_TITLE") && c.identityHash == ValueIn(agentData, "IDENTITY")
            && c.status == ValueIn(agentData, "STATUS") && c.genesisTime == ValueIn(agentData, "TIME")
            && c.mission == ValueIn(agentData, "MISSION")
            && c.lineage == OrElse(ValueIn(agentData, "LINEAGE"), "ROOT")
            && c.missionHash == OrElse(ValueIn(agentData, "MISSION_HASH"), ZERO_HASH)
            && c.pulseHash == OrElse(ValueIn(agentData, "PURPOSE_PULSE_HASH"), ZERO_HASH)
  {
    var r := BLANK.ReadAll(Tokens(agentData, '|'));
    forall f ensures r.Get(f) == ValueIn(agentData, KeyOf(f)) {
      FieldIsLastValue(BLANK, Tokens(agentData, '|'), f);
      BlankField(f);
    }
    hide Tokens, LastValue, ValueIn, Card.ReadAll;
    assert r.Get(AgentId) == r.id && r.Get(AgentName) == r.name && r.Get(Class) == r.agentClass;
    assert r.Get(Owner) == r.owner && r.Get(OwnerTitle) == r.ownerTitle && r.Get(Namespace) == r.identityHash;
    assert r.Get(Status) == r.status && r.Get(GenesisTime) == r.genesisTime && r.Get(Mission) == r.mission;
    assert r.Get(Lineage) == r.lineage && r.Get(MissionHash) == r.missionHash && r.Get(PulseHash) == r.pulseHash;
  }

  /** The hash that stands for a missing one: 64 zeros behind the prefix. */
  lemma ZeroHashIs()
    ensures |ZERO_HASH| == 66 && ZERO_HASH[..2] == "0x" && forall i :: 2 <= i < 66 ==> ZERO_HASH[i] == '0'
  {
    assert |ZEROS_1| == 33 && ZEROS_1[..2] == "0x" && forall i :: 2 <= i < 33 ==> ZEROS_1[i] == '0';
    assert |ZEROS_2| == 33 && forall i :: 0 <= i < 33 ==> ZEROS_2[i] == '0';
  }

  /** The hexadecimal digit of a value below 16, by its place in the character set. */
  function HexDigit(n: nat): char
    requires n < 16
  {
    if n < 10 then '0' + n as char else 'a' + (n - 10) as char
  }

  lemma HexDigitsAre(n: nat)
    requires n < 16
    ensures HEX_DIGITS[n] == HexDigit(n)
  {
  }

  lemma {:induction false} ConcatOfPairs(ps: seq<string>, i: nat)
    requires i < |ps| && forall p :: p in ps ==> |p| == 2
    ensures |Concat(ps)| == 2 * |ps| && Concat(ps)[2 * i..2 * i + 2] == ps[i]
  {
    assert ps[0] in ps;
    var rest := ps[1..];
    assert Concat(ps) == ps[0] + Concat(rest);
    if rest == [] {
      assert Concat(rest) == "";
    } else {
      ConcatOfPairs(rest, if i > 0 then i - 1 else 0);
      if i > 0 {
        assert Concat(ps)[2 * i..2 * i + 2] == Concat(rest)[2 * (i - 1)..2 * (i - 1) + 2];
      }
    }
  }

  /** A byte is rendered as two lower-case digits, the upper half first. */
  lemma HexBytesAre(d: seq<byte>, i: nat)
    requires i < |d|
    ensures |HexBytes(d)| == 2 * |d|
    ensures HexBytes(d)[2 * i] == HexDigit(d[i] as nat / 16) && HexBytes(d)[2 * i + 1] == HexDigit(d[i] as nat % 16)
  {
    var ps := seq(|d|, i requires 0 <= i < |d| => HexPair(d[i]));
    forall i | 0 <= i < |d| ensures |ps[i]| == 2 {
      HexByteShape(d[i]);
    }
    HexByteShape(d[i]);
    ConcatOfPairs(ps, i);
    HexDigitsAre(d[i] as nat / 16);
    HexDigitsAre(d[i] as nat % 16);
    assert ps[i] == HexPair(d[i]);
    hide HexPair, HexDigit, Concat;
    assert HexBytes(d)[2 * i..2 * i + 2][0] == ps[i][0] && HexBytes(d)[2 * i..2 * i + 2][1] == ps[i][1];
  }

  /** The fingerprint of a text is the rendered digest of seven of its values, joined by bars. */
  lemma FingerprintIs(t: string, digest: string -> Digest)
    ensures Fingerprint(t, digest)
         == "0x" + HexBytes(digest(ValueIn(t, "AGENT_ID") + "|" + ValueIn(t, "AGENT_NAME") + "|" + ValueIn(t, "OWNER")
                                   + "|" + ValueIn(t, "IDENTITY") + "|" + ValueIn(t, "TIME") + "|"
                                   + OrElse(ValueIn(t, "LINEAGE"), "ROOT") + "|" + ValueIn(t, "MISSION")))
  {
    ParsedFields(t);
    hide Parse, ValueIn, OrElse, HexBytes;
  }

  // ---------- the parser object ----------

  /** What is left of the stream after one getline. */
  function AfterToken(rest: string, sep: char): (r: string)
    ensures rest != [] ==> |r| < |rest|
  {
    var k := IndexOf(rest, sep);
    if k == |rest| then [] else rest[k + 1..]
  }

  lemma NextToken(rest: string, sep: char)
    requires rest != []
    ensures Tokens(rest, sep) == [rest[..IndexOf(rest, sep)]] + Tokens(AfterToken(rest, sep), sep)
  {
    assert rest[..|rest|] == rest;
  }

  /** The first token of the rest moves over to those done. */
  lemma TokenMoves(all: string, done: seq<string>, rest: string, sep: char)
    requires rest != [] && Tokens(all, sep) == done + Tokens(rest, sep)
    ensures Tokens(all, sep) == done + [rest[..IndexOf(rest, sep)]] + Tokens(AfterToken(rest, sep), sep)
  {
    NextToken(rest, sep);
    hide Tokens, IndexOf, AfterToken;
  }

  lemma AllTokens(all: string, done: seq<string>, rest: string, sep: char)
    requires rest == [] && Tokens(all, sep) == done + Tokens(rest, sep)
    ensures Tokens(all, sep) == done
  {
    assert Tokens(rest, sep) == [];
    hide Tokens;
  }

  lemma ReadAllSnoc(c: Card, done: seq<string>, token: string)
    ensures c.ReadAll(done + [token]) == c.ReadAll(done).Read(token)
  {
    assert (done + [token])[..|done|] == done;
  }

  lemma AssignKnown(c: Card, f: Field, val: string)
    ensures c.Assign(KeyOf(f), val) == c.Set(f, val)
  {
    DataOrderComplete();
    FieldNamedIff(KeyOf(f), DATA_ORDER, f);
    assert f in DATA_ORDER;
  }

  lemma AssignUnknown(c: Card, key: string, val: string)
    requires forall f :: key != KeyOf(f)
    ensures c.Assign(key, val) == c
  {
    var found := FieldNamed(key, DATA_ORDER);
    if found.Some? {
      FieldNamedIff(key, DATA_ORDER, found.value);
    }
  }

  /** The parsed identity; only the constructor's helpers write its member fields. */
  class ImmortalIdentity {
    var fields: Card
    var m_fingerprint: string

    constructor (agentData: string, digest: string -> Digest)
      ensures fields == Parse(agentData)
      ensures m_fingerprint == Fingerprint(agentData, digest)
    {
      fields := BLANK;
      m_fingerprint := "";
      new;
      ReadTokens(agentData);
      ApplyDefaults();
      var preimage := fields.id + "|" + fields.name + "|" + fields.owner + "|" + fields.identityHash + "|"
                    + fields.genesisTime + "|" + fields.lineage + "|" + fields.mission;
      m_fingerprint := Sha256Hex(preimage, digest);
    }

    /** The getline loop. */
    method ReadTokens(agentData: string)
      modifies `fields
      ensures fields == old(fields).ReadAll(Tokens(agentData, '|'))
    {
      var rest := agentData;
      ghost var done: seq<string> := [];
      assert fields == old(fields).ReadAll(done) && Tokens(agentData, '|') == done + Tokens(rest, '|');
      hide Tokens, IndexOf, AfterToken, Card.ReadAll, Card.Read;
      while rest != []
        invariant Tokens(agentData, '|') == done + Tokens(rest, '|')
        invariant fields == old(fields).ReadAll(done)
        decreases |rest|
      {
        TokenMoves(agentData, done, rest, '|');
        var token := rest[..IndexOf(rest, '|')];
        rest := AfterToken(rest, '|');
        ReadToken(token);
        ReadAllSnoc(old(fields), done, token);
        done := done + [token];
      }
      AllTokens(agentData, done, rest, '|');
    }

    method ReadToken(token: string)
      modifies `fields
      ensures fields == old(fields).Read(token)
    {
      hide Card.Assign;
      var colon := IndexOf(token, ':');
      if colon == |token| { return; }
      SetField(token[..colon], token[colon + 1..]);
    }

    /** The parser's if/else chain over the known keys. */
    method SetField(key: string, val: string)
      modifies `fields
      ensures fields == old(fields).Assign(key, val)
    {
      if key == KeyOf(AgentId) {
        AssignKnown(fields, AgentId, val);
        fields := fields.(id := val);
      } else if key == KeyOf(AgentName) {
        AssignKnown(fields, AgentName, val);
        fields := fields.(name := val);
      } else if key == KeyOf(Class) {
        AssignKnown(fields, Class, val);
        fields := fields.(agentClass := val);
      } else if key == KeyOf(Owner) {
        AssignKnown(fields, Owner, val);
        fields := fields.(owner := val);
      } else if key == KeyOf(OwnerTitle) {
        AssignKnown(fields, OwnerTitle, val);
        fields := fields.(ownerTitle := val);
      } else if key == KeyOf(Namespace) {
        AssignKnown(fields, Namespace, val);
        fields := fields.(identityHash := val);
      } else if key == KeyOf(Status) {
        AssignKnown(fields, Status, val);
        fields := fields.(status := val);
      } else if key == KeyOf(GenesisTime) {
        AssignKnown(fields, GenesisTime, val);
        fields := fields.(genesisTime := val);
      } else if key == KeyOf(Mission) {
        AssignKnown(fields, Mission, val);
        fields := fields.(mission := val);
      } else if key == KeyOf(Lineage) {
        AssignKnown(fields, Lineage, val);
        fields := fields.(lineage := val);
      } else if key == KeyOf(MissionHash) {
        AssignKnown(fields, MissionHash, val);
        fields := fields.(missionHash := val);
      } else if key == KeyOf(PulseHash) {
        AssignKnown(fields, PulseHash, val);
        fields := fields.(pulseHash := val);
      } else {
        forall f ensures key != KeyOf(f) { }
        AssignUnknown(fields, key, val);
      }
    }

    method ApplyDefaults()
      modifies `fields
      ensures fields == old(fields).WithDefaults()
    {
      if fields.lineage == "" { fields := fields.(lineage := "ROOT"); }
      if fields.missionHash == "" { fields := fields.(missionHash := ZERO_HASH); }
      if fields.pulseHash == "" { fields := fields.(pulseHash := ZERO_HASH); }
    }
  }

  // ---------- the two shipped identities ----------

  const GENESIS: BarFree := "GENESIS_COMPLETE"
  const STEWARD: BarFree := "Joshua M Capps"

  const JMC_ID: BarFree := "Dimensional Twin Agent"
  const JMC_NAME: BarFree := "JMC-Origin"
  const JMC_CLASS: BarFree := "twin"
  const JMC_TITLE: BarFree := "Founder, Steward"
  const JMC_NAMESPACE: BarFree := "#us#agent.twin.prototype.joshua.capps"
  const JMC_TIME: BarFree := "2026-01-23T02:23:10.063Z"
  const JMC_MISSION_1: BarFree := "Canonical continuity anchor for "
  const JMC_MISSION_2: BarFree := "simulation-to-deployment "
  const JMC_MISSION_3: BarFree := "identity preservation"
  const JMC_MISSION: BarFree := JMC_MISSION_1 + JMC_MISSION_2 + JMC_MISSION_3
  const JMC_LINEAGE: BarFree := "ROOT"
  const JMC_HASH_1: BarFree := "0x48ba22fd1e116d9edae79031d1ab769"
  const JMC_HASH_2: BarFree := "c67a78f6ad98b1734a7c3e2d3347d32dd"
  const JMC_HASH: BarFree := JMC_HASH_1 + JMC_HASH_2

  const AEGIS_ID: BarFree := "Enterprise Agent"
  const AEGIS_NAME: BarFree := "Aegis-RAN"
  const AEGIS_CLASS: BarFree := "enterprise"
  const AEGIS_OWNER: BarFree := "NOVA X Quantum Inc."
  const AEGIS_NAMESPACE_1: BarFree := "#us#agent.enterprise."
  const AEGIS_NAMESPACE_2: BarFree := "exec.novaxquantuminc."
  const AEGIS_NAMESPACE: BarFree := AEGIS_NAMESPACE_1 + AEGIS_NAMESPACE_2
  const AEGIS_TIME: BarFree := "2026-01-23T00:55:27.990Z"
  const AEGIS_MISSION_1: BarFree := "Autonomous optimization of "
  const AEGIS_MISSION_2: BarFree := "AI-native radio access "
  const AEGIS_MISSION_3: BarFree := "network (RAN) operations"
  const AEGIS_MISSION: BarFree := AEGIS_MISSION_1 + AEGIS_MISSION_2 + AEGIS_MISSION_3
  const AEGIS_HASH_1: BarFree := "0x71e7ed643c4ef9a496b5dad57666f83"
  const AEGIS_HASH_2: BarFree := "c399ae1cb38c27872e575ca49b5a02aae"
  const AEGIS_HASH: BarFree := AEGIS_HASH_1 + AEGIS_HASH_2

  const JMC_ORIGIN := Card(
    JMC_ID, JMC_NAME, JMC_CLASS, STEWARD, JMC_TITLE, JMC_NAMESPACE, GENESIS, JMC_TIME, JMC_MISSION, JMC_LINEAGE,
    JMC_HASH, ZERO_HASH)

  const AEGIS_RAN := Card(
    AEGIS_ID, AEGIS_NAME, AEGIS_CLASS, AEGIS_OWNER, STEWARD, AEGIS_NAMESPACE, GENESIS, AEGIS_TIME, AEGIS_MISSION,
    JMC_NAME, AEGIS_HASH, ZERO_HASH)

  // The texts as the program has them, line by line.
  const JMC_ORIGIN_FULL_DATA :=
    "AGENT_ID" + ":" + "Dimensional Twin Agent" + "|" +
    "AGENT_NAME" + ":" + "JMC-Origin" + "|" +
    "CLASS" + ":" + "twin" + "|" +
    "OWNER" + ":" + "Joshua M Capps" + "|" +
    "OWNER_TITLE" + ":" + "Founder, Steward" + "|" +
    "IDENTITY" + ":" + "#us#agent.twin.prototype.joshua.capps" + "|" +
    "STATUS" + ":" + "GENESIS_COMPLETE" + "|" +
    "TIME" + ":" + "2026-01-23T02:23:10.063Z" + "|" +
    "MISSION" + ":" +
    ("Canonical continuity anchor for " + "simulation-to-deployment " + "identity preservation") + "|" +
    "LINEAGE" + ":" + "ROOT" + "|" +
    "MISSION_HASH" + ":" + ("0x48ba22fd1e116d9edae79031d1ab769" + "c67a78f6ad98b1734a7c3e2d3347d32dd") + "|" +
    "PURPOSE_PULSE_HASH" + ":" + ZERO_HASH

  const AEGIS_RAN_FULL_DATA :=
    "AGENT_ID" + ":" + "Enterprise Agent" + "|" +
    "AGENT_NAME" + ":" + "Aegis-RAN" + "|" +
    "CLASS" + ":" + "enterprise" + "|" +
    "OWNER" + ":" + "NOVA X Quantum Inc." + "|" +
    "OWNER_TITLE" + ":" + "Joshua M Capps" + "|" +
    "IDENTITY" + ":" + ("#us#agent.enterprise." + "exec.novaxquantuminc.") + "|" +
    "STATUS" + ":" + "GENESIS_COMPLETE" + "|" +
    "TIME" + ":" + "2026-01-23T00:55:27.990Z" + "|" +
    "MISSION" + ":" + ("Autonomous optimization of " + "AI-native radio access " + "network (RAN) operations") + "|" +
    "LINEAGE" + ":" + "JMC-Origin" + "|" +
    "MISSION_HASH" + ":" + ("0x71e7ed643c4ef9a496b5dad57666f83" + "c399ae1cb38c27872e575ca49b5a02aae") + "|" +
    "PURPOSE_PULSE_HASH" + ":" + ZERO_HASH

  /** The layout of such a text. */
  function Layout(c: Card): string
  {
    "AGENT_ID" + ":" + c.id + "|" +
    "AGENT_NAME" + ":" + c.name + "|" +
    "CLASS" + ":" + c.agentClass + "|" +
    "OWNER" + ":" + c.owner + "|" +
    "OWNER_TITLE" + ":" + c.ownerTitle + "|" +
    "IDENTITY" + ":" + c.identityHash + "|" +
    "STATUS" + ":" + c.status + "|" +
    "TIME" + ":" + c.genesisTime + "|" +
    "MISSION" + ":" + c.mission + "|" +
    "LINEAGE" + ":" + c.lineage + "|" +
    "MISSION_HASH" + ":" + c.missionHash + "|" +
    "PURPOSE_PULSE_HASH" + ":" + c.pulseHash
  }

  /** The first n fields in print. */
  function Printed(c: Card, n: nat): string
    requires 0 < n <= |DATA_ORDER|
  {
    var f := DATA_ORDER[n - 1];
    if n == 1 then KeyOf(f) + ":" + c.Get(f) else Printed(c, n - 1) + "|" + KeyOf(f) + ":" + c.Get(f)
  }

  lemma TextsUpTo(c: Card, n: nat)
    requires 0 < n <= |DATA_ORDER|
    ensures Texts(EntriesOf(c, DATA_ORDER[..n]))
         == Texts(EntriesOf(c, DATA_ORDER[..n - 1])) + [KeyOf(DATA_ORDER[n - 1]) + ":" + c.Get(DATA_ORDER[n - 1])]
  {
    hide KeyOf, Card.Get;
  }

  lemma {:induction false} PrintedIsPrint(c: Card, n: nat)
    requires 0 < n <= |DATA_ORDER|
    ensures Printed(c, n) == Print(EntriesOf(c, DATA_ORDER[..n]))
  {
    TextsUpTo(c, n);
    hide KeyOf, Card.Get, DATA_ORDER;
    var before := Texts(EntriesOf(c, DATA_ORDER[..n - 1]));
    if n == 1 {
      assert before == [];
    } else {
      PrintedIsPrint(c, n - 1);
      hide Join;
      JoinSnoc(before, KeyOf(DATA_ORDER[n - 1]) + ":" + c.Get(DATA_ORDER[n - 1]), '|');
    }
  }

  lemma FirstFields(c: Card)
    ensures Printed(c, 4) == "AGENT_ID" + ":" + c.id + "|" + "AGENT_NAME" + ":" + c.name + "|" + "CLASS" + ":"
                             + c.agentClass + "|" + "OWNER" + ":" + c.owner
  {
    assert Printed(c, 1) == "AGENT_ID" + ":" + c.id;
    assert Printed(c, 2) == Printed(c, 1) + "|" + "AGENT_NAME" + ":" + c.name;
    assert Printed(c, 3) == Printed(c, 2) + "|" + "CLASS" + ":" + c.agentClass;
  }

  lemma MiddleFields(c: Card)
    ensures Printed(c, 8) == Printed(c, 4) + "|" + "OWNER_TITLE" + ":" + c.ownerTitle + "|" + "IDENTITY" + ":"
                             + c.identityHash + "|" + "STATUS" + ":" + c.status + "|" + "TIME" + ":" + c.genesisTime
  {
    assert Printed(c, 5) == Printed(c, 4) + "|" + "OWNER_TITLE" + ":" + c.ownerTitle;
    assert Printed(c, 6) == Printed(c, 5) + "|" + "IDENTITY" + ":" + c.identityHash;
    assert Printed(c, 7) == Printed(c, 6) + "|" + "STATUS" + ":" + c.status;
  }

  lemma LastFields(c: Card)
    ensures Printed(c, 12) == Printed(c, 8) + "|" + "MISSION" + ":" + c.mission + "|" + "LINEAGE" + ":" + c.lineage
                              + "|" + "MISSION_HASH" + ":" + c.missionHash + "|" + "PURPOSE_PULSE_HASH" + ":"
                              + c.pulseHash
  {
    assert Printed(c, 9) == Printed(c, 8) + "|" + "MISSION" + ":" + c.mission;
    assert Printed(c, 10) == Printed(c, 9) + "|" + "LINEAGE" + ":" + c.lineage;
    assert Printed(c, 11) == Printed(c, 10) + "|" + "MISSION_HASH" + ":" + c.missionHash;
  }

  lemma LayoutIsPrint(c: Card)
    ensures Layout(c) == Print(EntriesOf(c, DATA_ORDER))
  {
    assert DATA_ORDER[..12] == DATA_ORDER;
    PrintedIsPrint(c, 12);
    hide Print, EntriesOf, Printed, DATA_ORDER;
    FirstFields(c);
    MiddleFields(c);
    LastFields(c);
  }

  lemma ShippedLayouts()
    ensures JMC_ORIGIN_FULL_DATA == Layout(JMC_ORIGIN) && AEGIS_RAN_FULL_DATA == Layout(AEGIS_RAN)
  {
    hide ZERO_HASH;
  }

  /** The values of the shipped cards are free of separators by their types. */
  lemma CardsBarFree()
    ensures forall f :: '|' !in JMC_ORIGIN.Get(f) && '|' !in AEGIS_RAN.Get(f)
  {
  }

  lemma CardsComplete()
    ensures JMC_ORIGIN.WithDefaults() == JMC_ORIGIN && AEGIS_RAN.WithDefaults() == AEGIS_RAN
  {
    assert |JMC_LINEAGE| == 4 && |JMC_NAME| == 10 && |JMC_HASH_1| == |AEGIS_HASH_1| == |ZEROS_1| == 33;
  }

  /** Both shipped texts parse to the cards that they spell out. */
  lemma ShippedCards()
    ensures Parse(JMC_ORIGIN_FULL_DATA) == JMC_ORIGIN
    ensures Parse(AEGIS_RAN_FULL_DATA) == AEGIS_RAN
  {
    hide *;
    ShippedLayouts();
    LayoutIsPrint(JMC_ORIGIN);
    LayoutIsPrint(AEGIS_RAN);
    DataOrderComplete();
    CardsBarFree();
    CardsComplete();
    RoundTrip(JMC_ORIGIN, DATA_ORDER);
    RoundTrip(AEGIS_RAN, DATA_ORDER);
  }
}
