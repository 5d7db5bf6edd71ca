/** The part of Go's `encoding/json` the handlers depend on: how a value is
    written as text, and what `json.Unmarshal` into an `interface{}` gives back.
    A struct is written with its fields in declaration order; an object decoded
    into an `interface{}` is a Go map, and a map is written with its keys in
    sorted order. Parsing text is an oracle. */
module GoJson {
  import opened Common

  datatype Json = JNull | JBool(b: bool) | JString(s: string) | JArray(items: seq<Json>) | JObject(members: seq<Member>)

  datatype Member = Member(name: string, value: Json)

  const Hex := "0123456789abcdef"

  /** Characters written as themselves inside a string literal. */
  predicate Plain(c: char)
  {
    ' ' <= c && c != '"' && c != '\\' && c != '<' && c != '>' && c != '&' && c != '\U{2028}' && c != '\U{2029}'
  }

  /** One character as the encoder writes it inside a string literal: the
      HTML-safe escaping of Go 1.22 and later. */
  function EscapeChar(c: char): (r: string)
    ensures Plain(c) <==> r == [c]
    ensures !Plain(c) ==> |r| >= 2 && r[0] == '\\'
  {
    if c == '"' then "\\\""
    else if c == '\\' then "\\\\"
    else if c == '\n' then "\\n"
    else if c == '\r' then "\\r"
    else if c == '\t' then "\\t"
    else if c == '\U{8}' then "\\b"
    else if c == '\U{C}' then "\\f"
    else if c < ' ' || c == '<' || c == '>' || c == '&' then "\\u00" + [Hex[c as int / 16], Hex[c as int % 16]]
    else if c == '\U{2028}' then "\\u2028"
    else if c == '\U{2029}' then "\\u2029"
    else [c]
  }

  function Escape(s: string): (r: string)
    ensures (forall i :: 0 <= i < |s| ==> Plain(s[i])) <==> r == s
    ensures |r| >= |s|
  {
    if s == [] then []
    else
      assert s == [s[0]] + s[1..];
      EscapeChar(s[0]) + Escape(s[1..])
  }

  function Quote(s: string): (q: string)
    ensures |q| >= |s| + 2 && q[0] == '"' && q[|q| - 1] == '"'
  {
    "\"" + Escape(s) + "\""
  }

  /** Comma-separated. */
  function Join(parts: seq<string>): (r: string)
    ensures parts != [] ==> parts[0] <= r
  {
    if parts == [] then ""
    else if |parts| == 1 then parts[0]
    else parts[0] + "," + Join(parts[1..])
  }

  /** `json.Marshal`, compact output. */
  function Encode(j: Json): (r: string)
    ensures |r| > 0
  {
    match j
    case JNull => "null"
    case JBool(b) => if b then "true" else "false"
    case JString(s) => Quote(s)
    case JArray(items) =>
      "[" + Join(seq(|items|, i requires 0 <= i < |items| => Encode(items[i]))) + "]"
    case JObject(members) =>
      "{" + Join(seq(|members|, i requires 0 <= i < |members| => Quote(members[i].name) + ":" + Encode(members[i].value))) + "}"
  }

  /** `json.Unmarshal` parses what `json.Marshal` wrote. */
  ghost predicate ParseSound(parse: string -> Result<Json, Error>)
  {
    forall j :: parse(Encode(j)) == Success(j)
  }

  // ---------------------------------------------------------------------------
  // Maps: keys in sorted (byte-wise) order.

  /** `a < b`, comparing character by character. */
  predicate Below(a: string, b: string)
  {
    |b| > 0 && (|a| == 0 || a[0] < b[0] || (a[0] == b[0] && Below(a[1..], b[1..])))
  }

  lemma {:induction false} BelowIrreflexive(a: string)
    ensures !Below(a, a)
  {
    if |a| > 0 {
      BelowIrreflexive(a[1..]);
    }
  }

  lemma {:induction false} BelowTransitive(a: string, b: string, c: string)
    requires Below(a, b) && Below(b, c)
    ensures Below(a, c)
  {
    if |a| > 0 && a[0] == b[0] && b[0] == c[0] {
      BelowTransitive(a[1..], b[1..], c[1..]);
    }
  }

  lemma {:induction false} BelowTotal(a: string, b: string)
    ensures a == b || Below(a, b) || Below(b, a)
  {
    if |a| > 0 && |b| > 0 && a[0] == b[0] {
      BelowTotal(a[1..], b[1..]);
      if a[1..] == b[1..] {
        assert a == [a[0]] + a[1..] && b == [b[0]] + b[1..];
      }
    }
  }

  lemma BelowAsymmetric(a: string, b: string)
    requires Below(a, b)
    ensures !Below(b, a)
  {
    if Below(b, a) {
      BelowTransitive(a, b, a);
      BelowIrreflexive(a);
    }
  }

  ghost function Names(ms: seq<Member>): set<string>
  {
    set m | m in ms :: m.name
  }

  /** Keys strictly increasing: how a Go map is written. */
  ghost predicate Sorted(ms: seq<Member>)
  {
    forall i, j :: 0 <= i < j < |ms| ==> Below(ms[i].name, ms[j].name)
  }

  /** Puts `m` in its place; an equal key is overwritten, as a map entry is. */
  function InsertMember(ms: seq<Member>, m: Member): seq<Member>
  {
    if ms == [] then [m]
    else if m.name == ms[0].name then [m] + ms[1..]
    else if Below(m.name, ms[0].name) then [m] + ms
    else [ms[0]] + InsertMember(ms[1..], m)
  }

  /** Inserting keeps every member under another key, adds `m`, and adds nothing else. */
  lemma {:induction false} InsertMemberContents(ms: seq<Member>, m: Member)
    requires Sorted(ms)
    ensures var r := InsertMember(ms, m);
            m in r
            && (forall x :: x in r ==> x == m || (x in ms && x.name != m.name))
            && (forall x :: x in ms && x.name != m.name ==> x in r)
  {
    if ms != [] {
      if m.name == ms[0].name {
        forall j | 1 <= j < |ms| ensures ms[j].name != m.name {
          BelowIrreflexive(m.name);
        }
        assert forall x :: x in ms && x.name != m.name ==> x in ms[1..] by {
          assert ms == [ms[0]] + ms[1..];
        }
      } else if Below(m.name, ms[0].name) {
        forall j | 0 <= j < |ms| ensures ms[j].name != m.name {
          if j > 0 {
            BelowTransitive(m.name, ms[0].name, ms[j].name);
          }
          BelowIrreflexive(m.name);
        }
      } else {
        InsertMemberContents(ms[1..], m);
        assert forall x :: x in ms ==> x == ms[0] || x in ms[1..] by {
          assert ms == [ms[0]] + ms[1..];
        }
      }
    }
  }

  lemma {:induction false} InsertMemberSorted(ms: seq<Member>, m: Member)
    requires Sorted(ms)
    ensures Sorted(InsertMember(ms, m))
  {
    if ms == [] || m.name == ms[0].name {
      return;
    }
    if Below(m.name, ms[0].name) {
      forall j | 0 < j < |ms| ensures Below(m.name, ms[j].name) {
        BelowTransitive(m.name, ms[0].name, ms[j].name);
      }
    } else {
      BelowTotal(m.name, ms[0].name);
      InsertMemberSorted(ms[1..], m);
      InsertMemberContents(ms[1..], m);
      var rest := InsertMember(ms[1..], m);
      assert forall x :: x in rest ==> Below(ms[0].name, x.name);
      assert forall j :: 0 <= j < |rest| ==> rest[j] in rest;
    }
  }

  lemma InsertMemberNames(ms: seq<Member>, m: Member)
    requires Sorted(ms)
    ensures Names(InsertMember(ms, m)) == Names(ms) + {m.name}
  {
    InsertMemberContents(ms, m);
  }

  function SortMembers(ms: seq<Member>): (r: seq<Member>)
    ensures Sorted(r) && Names(r) == Names(ms)
    ensures forall x :: x in r ==> x in ms
  {
    if ms == [] then []
    else
      var init := SortMembers(ms[..|ms| - 1]);
      assert ms == ms[..|ms| - 1] + [ms[|ms| - 1]];
      InsertMemberSorted(init, ms[|ms| - 1]);
      InsertMemberNames(init, ms[|ms| - 1]);
      InsertMemberContents(init, ms[|ms| - 1]);
      InsertMember(init, ms[|ms| - 1])
  }

  /** What `json.Unmarshal` into an `interface{}` gives back: objects become
      maps, whose members are written in key order. */
  function Generic(j: Json): Json
  {
    match j
    case JArray(items) => JArray(seq(|items|, i requires 0 <= i < |items| => Generic(items[i])))
    case JObject(ms) => JObject(SortMembers(seq(|ms|, i requires 0 <= i < |ms| => Member(ms[i].name, Generic(ms[i].value)))))
    case _ => j
  }

  /** Every object in `j` has its members in key order. */
  ghost predicate Canonical(j: Json)
  {
    match j
    case JArray(items) => forall i :: 0 <= i < |items| ==> Canonical(items[i])
    case JObject(ms) => Sorted(ms) && forall i :: 0 <= i < |ms| ==> Canonical(ms[i].value)
    case _ => true
  }

  /** A member whose key is above all others goes last. */
  lemma {:induction false} InsertAtEnd(ms: seq<Member>, m: Member)
    requires forall x :: x in ms ==> Below(x.name, m.name)
    ensures InsertMember(ms, m) == ms + [m]
  {
    if ms != [] {
      BelowIrreflexive(m.name);
      BelowAsymmetric(ms[0].name, m.name);
      InsertAtEnd(ms[1..], m);
      assert ms == [ms[0]] + ms[1..];
    }
  }

  lemma {:induction false} SortSortedIsIdentity(ms: seq<Member>)
    requires Sorted(ms)
    ensures SortMembers(ms) == ms
  {
    if ms != [] {
      var init := ms[..|ms| - 1];
      SortSortedIsIdentity(init);
      forall x | x in init ensures Below(x.name, ms[|ms| - 1].name) {
        var i :| 0 <= i < |init| && init[i] == x;
      }
      InsertAtEnd(init, ms[|ms| - 1]);
      assert init + [ms[|ms| - 1]] == ms;
    }
  }

  /** A decoded value is canonical. */
  lemma {:induction false} GenericIsCanonical(j: Json)
    ensures Canonical(Generic(j))
  {
    match j
    case JArray(items) =>
      forall i | 0 <= i < |items| ensures Canonical(Generic(items[i])) {
        GenericIsCanonical(items[i]);
      }
    case JObject(ms) =>
      var mapped := seq(|ms|, i requires 0 <= i < |ms| => Member(ms[i].name, Generic(ms[i].value)));
      var sorted := SortMembers(mapped);
      forall k | 0 <= k < |sorted| ensures Canonical(sorted[k].value) {
        assert sorted[k] in mapped;
        var i :| 0 <= i < |mapped| && mapped[i] == sorted[k];
        GenericIsCanonical(ms[i].value);
      }
    case _ =>
  }

  /** Decoding leaves a canonical value as it is. */
  lemma {:induction false} CanonicalIsFixed(j: Json)
    requires Canonical(j)
    ensures Generic(j) == j
  {
    match j
    case JArray(items) =>
      forall i | 0 <= i < |items| ensures Generic(items[i]) == items[i] {
        CanonicalIsFixed(items[i]);
      }
      assert Generic(j).items == items;
    case JObject(ms) =>
      var mapped := seq(|ms|, i requires 0 <= i < |ms| => Member(ms[i].name, Generic(ms[i].value)));
      forall i | 0 <= i < |ms| ensures mapped[i] == ms[i] {
        CanonicalIsFixed(ms[i].value);
      }
      assert mapped == ms;
      SortSortedIsIdentity(ms);
    case _ =>
  }

  /** Decoding twice is decoding once: a text written from a decoded value
      decodes to that same value. */
  lemma GenericIdempotent(j: Json)
    ensures Generic(Generic(j)) == Generic(j)
  {
    GenericIsCanonical(j);
    CanonicalIsFixed(Generic(j));
  }

  /** Among sorted members, the least key comes first. */
  lemma FirstIsLeast(ms: seq<Member>, k: string)
    requires Sorted(ms) && k in Names(ms)
    requires forall n :: n in Names(ms) && n != k ==> Below(k, n)
    ensures ms != [] && ms[0].name == k
  {
    var i :| 0 <= i < |ms| && ms[i].name == k;
    if ms[0].name != k {
      assert ms[0].name in Names(ms);
      BelowAsymmetric(k, ms[0].name);
    }
  }

  /** The third character of an object's text is the first character of its
      first key, when that character needs no escaping. */
  lemma ObjectTextStart(ms: seq<Member>)
    requires ms != [] && ms[0].name != [] && Plain(ms[0].name[0])
    ensures Encode(JObject(ms))[2] == ms[0].name[0]
  {
    var n := ms[0].name;
    var parts := seq(|ms|, i requires 0 <= i < |ms| => Quote(ms[i].name) + ":" + Encode(ms[i].value));
    assert Escape(n)[0] == n[0];
    assert Quote(n)[1] == n[0];
    assert parts[0][1] == n[0];
    assert parts[0] <= Join(parts);
    assert Encode(JObject(ms)) == "{" + Join(parts) + "}";
  }
}
