/** internal/auth/digest.go, `parseDigestHeader`: the fields of an
    `Authorization: Digest` header (section 3.4 of RFC 7616). */
module DigestHeader {
  import opened Options
  import opened GoStrings

  datatype Error = HeaderShape | MissingField

  type Fields = map<string, string>

  datatype Result = Ok(fields: Fields) | Err(error: Error)

  /** What follows one field: an optional comma with white space around it is dropped. */
  function NextBody(rest: string): (r: string)
    ensures |r| <= |rest|
  {
    var t := TrimSpace(rest);
    TrimSpace(if t != "" && t[0] == ',' then t[1..] else t)
  }

  /** The value at the start of `s`, and what follows it. */
  function CutValue(s: string): (r: Option<(string, string)>)
    ensures r.Some? ==> |r.value.1| <= |s|
  {
    if s != "" && s[0] == '"' then
      var end := IndexOf(s[1..], '"');
      if end < 0 then None else Some((s[1..1 + end], s[1 + end + 1..]))
    else
      var comma := IndexOf(s, ',');
      if comma < 0 then Some((TrimSpace(s), "")) else Some((TrimSpace(s[..comma]), s[comma..]))
  }

  /** The loop over the header's body: every turn consumes at least one `=`. */
  function ParseFields(body: string, fields: Fields): Result
    decreases |body|
  {
    if body == "" then Ok(fields)
    else
      var eq := IndexOf(body, '=');
      if eq < 0 then Err(HeaderShape)
      else
        match CutValue(body[eq + 1..])
        case None => Err(HeaderShape)
        case Some((value, rest)) =>
          ParseFields(NextBody(rest), fields[ToLower(TrimSpace(body[..eq])) := value])
  }

  predicate Filled(fields: Fields, key: string) { key in fields && fields[key] != "" }

  predicate Complete(fields: Fields) {
    Filled(fields, "username") && Filled(fields, "response") && Filled(fields, "nonce") && Filled(fields, "uri")
  }

  predicate IsDigest(trimmed: string) { "digest " <= ToLower(trimmed) }

  function Checked(r: Result): Result {
    if r.Ok? && !Complete(r.fields) then Err(MissingField) else r
  }

  function Parse(header: string): Result {
    var trimmed := TrimSpace(header);
    if !IsDigest(trimmed) then Err(HeaderShape) else Checked(ParseFields(trimmed[7..], map[]))
  }

  method ParseDigestHeader(header: string) returns (r: Result)
    ensures r == Parse(header)
  {
    var trimmed := TrimSpace(header);
    if !IsDigest(trimmed) {
      return Err(HeaderShape);
    }
    var fields := ParseBody(trimmed[7..]);
    if fields.Ok? && !Complete(fields.fields) {
      return Err(MissingField);
    }
    r := fields;
  }

  /** One turn of the loop. */
  lemma FieldTurn(body: string, eq: nat, value: string, rest: string, fields: Fields)
    requires body != "" && IndexOf(body, '=') == eq && CutValue(body[eq + 1..]) == Some((value, rest))
    ensures ParseFields(body, fields) == ParseFields(NextBody(rest), fields[ToLower(TrimSpace(body[..eq])) := value])
    ensures |NextBody(rest)| < |body|
  {
  }

  /** The loop of `parseDigestHeader`. */
  method ParseBody(text: string) returns (r: Result)
    ensures r == ParseFields(text, map[])
  {
    hide TrimSpace, ToLower, IndexOf;
    var body := text;
    var out: Fields := map[];
    while body != ""
      invariant ParseFields(body, out) == ParseFields(text, map[])
      decreases |body|
    {
      var eq := IndexOf(body, '=');
      if eq < 0 {
        return Err(HeaderShape);
      }
      var key := TrimSpace(body[..eq]);
      ghost var before, afterEq := body, body[eq + 1..];
      body := body[eq + 1..];
      var val: string;
      if body != "" && body[0] == '"' {
        var end := IndexOf(body[1..], '"');
        if end < 0 {
          return Err(HeaderShape);
        }
        val := body[1..1 + end];
        body := body[1 + end + 1..];
      } else {
        var comma := IndexOf(body, ',');
        if comma < 0 {
          val := body;
          body := "";
        } else {
          val := body[..comma];
          body := body[comma..];
        }
        val := TrimSpace(val);
      }
      assert CutValue(afterEq) == Some((val, body));
      FieldTurn(before, eq, val, body, out);
      out := out[ToLower(key) := val];
      body := TrimSpace(body);
      if body != "" && body[0] == ',' {
        body := body[1..];
      }
      body := TrimSpace(body);
    }
    r := Ok(out);
  }

  // ---------- round trip ---------------------------------------------------------------

  datatype Field = Field(key: string, value: string, quoted: bool) {
    /** A lower-case token for a key; a quoted value without quotation marks, in which
        commas and equals signs are fine, or a trimmed token without commas. */
    predicate Valid() {
      && key != "" && (forall c <- key :: KeyChar(c))
      && if quoted then '"' !in value
         else Trimmed(value) && ',' !in value && (value == "" || value[0] != '"')
    }

    function PrintedValue(): string {
      if quoted then "\"" + value + "\"" else value
    }

    /** The shape `challenge` prints. */
    function Printed(): string { key + "=" + PrintedValue() }
  }

  predicate KeyChar(c: char) {
    '!' <= c <= '~' && c != '=' && c != ',' && c != '"' && !('A' <= c <= 'Z')
  }

  /** The fields joined by a comma and a space. */
  function Joined(fields: seq<Field>): string
    decreases |fields|, 0
  {
    if fields == [] then "" else fields[0].Printed() + Tail(fields[1..])
  }

  function Tail(fields: seq<Field>): string
    decreases |fields|, 1
  {
    if fields == [] then "" else ", " + Joined(fields)
  }

  function AddAll(m: Fields, fields: seq<Field>): Fields
    decreases |fields|
  {
    if fields == [] then m else AddAll(m[fields[0].key := fields[0].value], fields[1..])
  }

  lemma KeyFacts(key: string)
    requires key != "" && forall c <- key :: KeyChar(c)
    ensures '=' !in key && Trimmed(key) && TrimSpace(key) == key && ToLower(key) == key
  {
    assert key[0] in key && key[|key| - 1] in key;
    assert forall i | 0 <= i < |key| :: LowerChar(key[i]) == key[i] by {
      forall i | 0 <= i < |key| ensures LowerChar(key[i]) == key[i] { assert key[i] in key; }
    }
  }

  lemma PrintedEnds(f: Field)
    requires f.Valid()
    ensures SpaceAtEnd(f.Printed()) == 0
  {
  }

  lemma SpaceAtEndOfConcat(a: string, b: string)
    requires |b| >= 3 && SpaceAtEnd(b) == 0
    ensures SpaceAtEnd(a + b) == 0
  {
  }

  lemma {:induction false} JoinedTrimmed(fields: seq<Field>)
    requires fields != [] && forall f <- fields :: f.Valid()
    ensures Joined(fields) != "" && KeyChar(Joined(fields)[0]) && Trimmed(Joined(fields))
  {
    var f := fields[0];
    assert f in fields && f.Valid();
    assert f.key[0] in f.key;
    PrintedEnds(f);
    if fields[1..] == [] {
      assert Joined(fields) == f.Printed();
    } else {
      JoinedTrimmed(fields[1..]);
      SpaceAtEndOfTail(Joined(fields[1..]));
      SpaceAtEndOfConcat(f.Printed(), Tail(fields[1..]));
    }
  }

  lemma SpaceAtEndOfTail(j: string)
    requires j != "" && KeyChar(j[0]) && Trimmed(j)
    ensures SpaceAtEnd(", " + j) == 0
  {
  }

  lemma NextBodyOf(j: string)
    requires j != "" && KeyChar(j[0]) && Trimmed(j)
    ensures NextBody(", " + j) == j
  {
    SpaceAtEndOfTail(j);
    TrimTrimmed(", " + j);
    assert (", " + j)[1..] == " " + j && (" " + j)[1..] == j;
    TrimTrimmed(j);
    assert TrimLeft(" " + j) == TrimLeft(j);
  }

  lemma NextBodyOfTail(fields: seq<Field>)
    requires forall f <- fields :: f.Valid()
    ensures NextBody(Tail(fields)) == Joined(fields)
  {
    if fields != [] {
      JoinedTrimmed(fields);
      NextBodyOf(Joined(fields));
    }
  }

  lemma CutQuoted(value: string, tail: string)
    requires '"' !in value
    ensures CutValue("\"" + value + "\"" + tail) == Some((value, tail))
  {
    var s := "\"" + value + "\"" + tail;
    assert s[1..] == value + "\"" + tail;
    IndexOfUnique(s[1..], '"', |value|);
    assert s[1..1 + |value|] == value && s[1 + |value| + 1..] == tail;
  }

  lemma CutToken(value: string, tail: string)
    requires Trimmed(value) && ',' !in value && (value == "" || value[0] != '"')
    requires tail == "" || tail[0] == ','
    ensures CutValue(value + tail) == Some((value, tail))
  {
    var s := value + tail;
    TrimTrimmed(value);
    assert s != "" ==> s[0] == (if value == "" then ',' else value[0]);
    if tail == "" {
      assert s == value;
    } else {
      IndexOfUnique(s, ',', |value|);
      assert s[..|value|] == value && s[|value|..] == tail;
    }
  }

  lemma CutValueOf(f: Field, fields: seq<Field>)
    requires f.Valid()
    ensures CutValue(f.PrintedValue() + Tail(fields)) == Some((f.value, Tail(fields)))
  {
    var tail := Tail(fields);
    assert tail == "" || tail[0] == ',';
    if f.quoted { CutQuoted(f.value, tail); } else { CutToken(f.value, tail); }
  }

  lemma ParseKey(key: string, after: string, value: string, rest: string, m: Fields)
    requires key != "" && (forall c <- key :: KeyChar(c)) && CutValue(after) == Some((value, rest))
    ensures ParseFields(key + "=" + after, m) == ParseFields(NextBody(rest), m[key := value])
  {
    var s := key + "=" + after;
    KeyFacts(key);
    assert s[..|key|] == key && s[|key| + 1..] == after;
    IndexOfUnique(s, '=', |key|);
  }

  lemma ParseOneField(f: Field, fields: seq<Field>, m: Fields)
    requires f.Valid() && forall g <- fields :: g.Valid()
    ensures ParseFields(f.Printed() + Tail(fields), m) == ParseFields(Joined(fields), m[f.key := f.value])
  {
    var after := f.PrintedValue() + Tail(fields);
    assert f.Printed() + Tail(fields) == f.key + "=" + after;
    CutValueOf(f, fields);
    NextBodyOfTail(fields);
    ParseKey(f.key, after, f.value, Tail(fields), m);
  }

  lemma {:induction false} ParseJoined(fields: seq<Field>, m: Fields)
    requires forall f <- fields :: f.Valid()
    ensures ParseFields(Joined(fields), m) == Ok(AddAll(m, fields))
    decreases |fields|
  {
    if fields != [] {
      ParseOneField(fields[0], fields[1..], m);
      ParseJoined(fields[1..], m[fields[0].key := fields[0].value]);
    }
  }

  lemma {:induction false} AddAllMapsEach(m: Fields, fields: seq<Field>)
    requires forall i, j | 0 <= i < j < |fields| :: fields[i].key != fields[j].key
    ensures var all := AddAll(m, fields);
            && (forall i | 0 <= i < |fields| :: fields[i].key in all && all[fields[i].key] == fields[i].value)
            && (forall k <- all :: (exists i | 0 <= i < |fields| :: fields[i].key == k) || (k in m && all[k] == m[k]))
            && (forall k <- m :: (forall i | 0 <= i < |fields| :: fields[i].key != k) ==> k in all && all[k] == m[k])
    decreases |fields|
  {
    if fields != [] {
      var rest, m' := fields[1..], m[fields[0].key := fields[0].value];
      AddAllMapsEach(m', rest);
      assert forall i | 0 <= i < |rest| :: rest[i] == fields[i + 1];
    }
  }

  predicate Carries(fields: seq<Field>, key: string) {
    exists f <- fields :: f.key == key && f.value != ""
  }

  /** `m` has exactly the keys and values of `fields`. */
  ghost predicate MapOf(m: Fields, fields: seq<Field>) {
    && (forall f <- fields :: f.key in m && m[f.key] == f.value)
    && (forall k <- m :: exists f <- fields :: f.key == k)
  }

  lemma AddAllIsMapOf(fields: seq<Field>)
    requires forall i, j | 0 <= i < j < |fields| :: fields[i].key != fields[j].key
    ensures MapOf(AddAll(map[], fields), fields)
  {
    AddAllMapsEach(map[], fields);
    var m := AddAll(map[], fields);
    forall f <- fields ensures f.key in m && m[f.key] == f.value {
      var i :| 0 <= i < |fields| && fields[i] == f;
    }
    forall k <- m ensures exists f <- fields :: f.key == k {
      var i :| 0 <= i < |fields| && fields[i].key == k;
      assert fields[i] in fields;
    }
  }

  predicate AllRequired(fields: seq<Field>) {
    Carries(fields, "username") && Carries(fields, "response") && Carries(fields, "nonce") && Carries(fields, "uri")
  }

  lemma AllRequiredComplete(m: Fields, fields: seq<Field>)
    requires MapOf(m, fields) && AllRequired(fields)
    ensures Complete(m)
  {
  }

  lemma PrintedParses(fields: seq<Field>)
    requires fields != [] && forall f <- fields :: f.Valid()
    ensures Parse("Digest " + Joined(fields)) == Checked(Ok(AddAll(map[], fields)))
  {
    JoinedTrimmed(fields);
    DigestPrefix(Joined(fields));
    ParseJoined(fields, map[]);
  }

  /** Printing any list of well-formed fields with distinct keys, the four required ones
      among them, and parsing the header gives back exactly those keys and values. */
  lemma HeaderRoundTrip(fields: seq<Field>)
    requires forall f <- fields :: f.Valid()
    requires forall i, j | 0 <= i < j < |fields| :: fields[i].key != fields[j].key
    requires AllRequired(fields)
    ensures Parse("Digest " + Joined(fields)).Ok?
    ensures MapOf(Parse("Digest " + Joined(fields)).fields, fields)
  {
    PrintedParses(fields);
    AddAllIsMapOf(fields);
    AllRequiredComplete(AddAll(map[], fields), fields);
  }

  /** An accepted header has the four required fields, none of them empty, and all its keys are
      in lower case. */
  lemma AcceptedIsComplete(header: string)
    requires Parse(header).Ok?
    ensures var m := Parse(header).fields;
            && "username" in m && m["username"] != "" && "response" in m && m["response"] != ""
            && "nonce" in m && m["nonce"] != "" && "uri" in m && m["uri"] != ""
            && forall k <- m :: forall i | 0 <= i < |k| :: !('A' <= k[i] <= 'Z')
  {
    hide ParseFields, TrimSpace, ToLower;
    LowerKeys(TrimSpace(header)[7..], map[]);
  }

  lemma {:induction false} LowerKeys(body: string, fields: Fields)
    requires forall k <- fields :: forall i | 0 <= i < |k| :: !('A' <= k[i] <= 'Z')
    ensures ParseFields(body, fields).Ok? ==>
              forall k <- ParseFields(body, fields).fields :: forall i | 0 <= i < |k| :: !('A' <= k[i] <= 'Z')
    decreases |body|
  {
    hide TrimSpace, ToLower, IndexOf, CutValue;
    if body != "" {
      var eq := IndexOf(body, '=');
      if eq >= 0 && CutValue(body[eq + 1..]).Some? {
        var (value, rest) := CutValue(body[eq + 1..]).value;
        FieldTurn(body, eq, value, rest, fields);
        LowerKeys(NextBody(rest), fields[ToLower(TrimSpace(body[..eq])) := value]);
      }
    }
  }

  /** Printed fields of which a required one is missing or empty are refused for that. */
  lemma MissingIsRefused(fields: seq<Field>)
    requires fields != [] && forall f <- fields :: f.Valid()
    requires forall i, j | 0 <= i < j < |fields| :: fields[i].key != fields[j].key
    requires !AllRequired(fields)
    ensures Parse("Digest " + Joined(fields)) == Err(MissingField)
  {
    hide ParseFields, Joined;
    PrintedParses(fields);
    AddAllIsMapOf(fields);
    if Complete(AddAll(map[], fields)) { FilledIsCarried(AddAll(map[], fields), fields); }
  }

  lemma FilledIsCarried(m: Fields, fields: seq<Field>)
    requires MapOf(m, fields) && Complete(m)
    ensures AllRequired(fields)
  {
  }

  lemma TrimLeftSpace(s: string)
    ensures TrimLeft(" " + s) == TrimLeft(s)
  {
    assert (" " + s)[1..] == s;
  }

  lemma TrimRightSpace(s: string)
    ensures TrimRight(s + " ") == TrimRight(s)
  {
    assert (s + " ")[..|s|] == s;
  }

  lemma TrimFixed(s: string)
    requires Trimmed(s)
    ensures TrimLeft(s) == s && TrimRight(s) == s && TrimRight("") == ""
    ensures TrimLeft(s + " ") == if s == "" then "" else s + " "
  {
    if s == "" {
      TrimLeftSpace("");
      assert s + " " == " " + "";
    } else {
      assert SpaceAtStart(s + " ") == 0;
    }
  }

  lemma TrimOneSpace(s: string)
    requires Trimmed(s)
    ensures TrimSpace(" " + s) == s && TrimSpace(s + " ") == s && TrimSpace(" " + s + " ") == s
  {
    hide TrimLeft, TrimRight;
    TrimFixed(s);
    TrimLeftSpace(s);
    TrimRightSpace(s);
    TrimLeftSpace(s + " ");
    assert " " + s + " " == " " + (s + " ");
  }

  /** Spaces around the key, the equals sign, an unquoted value and the comma do not matter, and
      neither does the case of the key. */
  lemma SpacesIgnored(key: string, value: string, fields: seq<Field>, m: Fields)
    requires key != "" && forall c <- key :: KeyChar(c) || 'A' <= c <= 'Z'
    requires Trimmed(value) && ',' !in value && fields != [] && forall f <- fields :: f.Valid()
    ensures ParseFields(" " + key + " = " + value + " , " + Joined(fields), m)
         == ParseFields(Joined(fields), m[ToLower(key) := value])
  {
    hide ParseFields, CutValue, ToLower, TrimSpace, NextBody, Joined;
    var after := " " + value + " , " + Joined(fields);
    var body := " " + key + " = " + value + " , " + Joined(fields);
    KeyTrimmed(key);
    TrimOneSpace(key);
    var eq := |key| + 2;
    SpacedBody(key, value, Joined(fields));
    IndexOfUnique(body, '=', eq);
    SpacedToken(value, ", " + Joined(fields));
    JoinedTrimmed(fields);
    NextBodyOf(Joined(fields));
    FieldTurn(body, eq, value, ", " + Joined(fields), m);
  }

  lemma SpacedBody(key: string, value: string, tail: string)
    requires '=' !in key
    ensures var body, after, eq := " " + key + " = " + value + " , " + tail, " " + value + " , " + tail, |key| + 2;
            && body[..eq] == " " + key + " " && '=' !in body[..eq] && body[eq] == '=' && body[eq + 1..] == after
            && after == " " + value + " " + (", " + tail)
  {
    var body, eq := " " + key + " = " + value + " , " + tail, |key| + 2;
    assert body[..eq] == " " + key + " ";
  }

  lemma KeyTrimmed(key: string)
    requires key != "" && forall c <- key :: KeyChar(c) || 'A' <= c <= 'Z'
    ensures Trimmed(key) && '=' !in key
  {
    assert key[0] in key && key[|key| - 1] in key;
  }

  lemma SpacedToken(value: string, tail: string)
    requires Trimmed(value) && ',' !in value && tail != "" && tail[0] == ','
    ensures CutValue(" " + value + " " + tail) == Some((value, tail))
  {
    hide TrimSpace;
    var s := " " + value + " " + tail;
    var n := |value| + 2;
    assert s[..n] == " " + value + " " && s[n..] == tail && s[n] == ',';
    IndexOfUnique(s, ',', n);
    TrimOneSpace(value);
  }

  /** A header that does not start with the scheme is refused. */
  lemma OtherSchemeIsRefused(header: string)
    requires !("digest " <= ToLower(TrimSpace(header)))
    ensures Parse(header) == Err(HeaderShape)
  {
  }

  lemma DigestPrefix(j: string)
    requires j != "" && KeyChar(j[0]) && Trimmed(j)
    ensures var h := "Digest " + j; TrimSpace(h) == h && IsDigest(h) && h[7..] == j
  {
    var h := "Digest " + j;
    assert h[|h| - 1] == j[|j| - 1];
    if |j| >= 2 { assert h[|h| - 2] == j[|j| - 2]; }
    if |j| >= 3 { assert h[|h| - 3] == j[|j| - 3]; }
    assert h[..7] == "Digest ";
    TrimTrimmed(h);
  }
}
