/** The JavaScript values the browser pages hold and the few built-in
    operations they apply to them: truthiness, `typeof … === 'object'`,
    `String(v)`, `JSON.stringify(v)`, property lookup and object spread.
    An object is its list of own properties in insertion order. */
module Js {
  import opened Text

  datatype FileInfo = FileInfo(name: string, mimeType: string)

  /** Numbers are modelled by their integer values. */
  datatype Value =
    | Undefined
    | Null
    | Bool(b: bool)
    | Num(n: int)
    | Str(s: string)
    | Arr(items: seq<Value>)
    | Obj(fields: seq<Field>)
    | File(file: FileInfo)

  datatype Field = Field(key: string, value: Value)

  predicate Truthy(v: Value) {
    match v
    case Undefined => false
    case Null => false
    case Bool(b) => b
    case Num(n) => n != 0
    case Str(s) => s != ""
    case _ => true
  }

  /** `typeof v === 'object'`, which holds for `null` too. */
  predicate IsObjectType(v: Value) {
    v.Null? || v.Arr? || v.Obj? || v.File?
  }

  /** `v || ''`. */
  function OrEmpty(v: Value): (r: Value)
    ensures Truthy(v) ==> r == v
    ensures !Truthy(v) ==> r == Str("")
  {
    if Truthy(v) then v else Str("")
  }

  // ---------------------------------------------------------------------------
  // Objects

  /** The property names, in order. */
  function Keys(fields: seq<Field>): (r: seq<string>)
    ensures |r| == |fields|
    ensures forall i :: 0 <= i < |fields| ==> r[i] == fields[i].key
    decreases |fields|
  {
    if fields == [] then [] else [fields[0].key] + Keys(fields[1..])
  }

  /** The properties of a JavaScript object have distinct names. */
  ghost predicate DistinctKeys(fields: seq<Field>) {
    forall i, j :: 0 <= i < j < |fields| ==> fields[i].key != fields[j].key
  }

  /** `o[k]`: `undefined` for a missing property. */
  function Get(fields: seq<Field>, k: string): (r: Value)
    ensures k !in Keys(fields) ==> r == Undefined
    ensures DistinctKeys(fields) ==> forall i :: 0 <= i < |fields| && fields[i].key == k ==> r == fields[i].value
    decreases |fields|
  {
    if fields == [] then Undefined
    else if fields[0].key == k then fields[0].value
    else
      Get(fields[1..], k)
  }

  /** `{ ...o, [k]: v }`: an existing property keeps its place and takes the
      new value; a new one is added at the end. */
  function Put(fields: seq<Field>, k: string, v: Value): (r: seq<Field>)
    ensures Get(r, k) == v
    ensures forall k' :: k' != k ==> Get(r, k') == Get(fields, k')
    ensures Keys(r) == if k in Keys(fields) then Keys(fields) else Keys(fields) + [k]
    decreases |fields|
  {
    if fields == [] then [Field(k, v)]
    else if fields[0].key == k then
      PutReplacesHead(fields, v);
      [Field(k, v)] + fields[1..]
    else
      var rest := Put(fields[1..], k, v);
      PutBehindHead(fields, k, v, rest);
      [fields[0]] + rest
  }

  /** The step of `Put` that finds the property at the head. */
  lemma PutReplacesHead(fields: seq<Field>, v: Value)
    requires fields != []
    ensures var r, k := [Field(fields[0].key, v)] + fields[1..], fields[0].key;
            && Get(r, k) == v
            && (forall k' :: k' != k ==> Get(r, k') == Get(fields, k'))
            && Keys(r) == Keys(fields)
  {
    var r, k := [Field(fields[0].key, v)] + fields[1..], fields[0].key;
    assert r[1..] == fields[1..];
    forall k' | k' != k ensures Get(r, k') == Get(fields, k') {
      assert Get(r, k') == Get(fields[1..], k');
    }
    assert Keys(r) == [k] + Keys(fields[1..]);
  }

  /** The step of `Put` that passes the head: what holds of the tail holds
      of the whole. */
  lemma PutBehindHead(fields: seq<Field>, k: string, v: Value, rest: seq<Field>)
    requires fields != [] && fields[0].key != k
    requires Get(rest, k) == v
    requires forall k' :: k' != k ==> Get(rest, k') == Get(fields[1..], k')
    requires Keys(rest) == if k in Keys(fields[1..]) then Keys(fields[1..]) else Keys(fields[1..]) + [k]
    ensures var r := [fields[0]] + rest;
            && Get(r, k) == v
            && (forall k' :: k' != k ==> Get(r, k') == Get(fields, k'))
            && Keys(r) == if k in Keys(fields) then Keys(fields) else Keys(fields) + [k]
  {
    var r := [fields[0]] + rest;
    assert r[1..] == rest;
    forall k' | k' != k ensures Get(r, k') == Get(fields, k') {
      if k' != fields[0].key {
        assert Get(r, k') == Get(rest, k');
      }
    }
    KeysBehindHead(fields, k, rest);
  }

  /** The names of a property followed by others. */
  lemma KeysCons(head: Field, tail: seq<Field>)
    ensures Keys([head] + tail) == [head.key] + Keys(tail)
  {
    assert ([head] + tail)[1..] == tail;
  }

  lemma KeysBehindHead(fields: seq<Field>, k: string, rest: seq<Field>)
    requires fields != [] && fields[0].key != k
    requires Keys(rest) == if k in Keys(fields[1..]) then Keys(fields[1..]) else Keys(fields[1..]) + [k]
    ensures Keys([fields[0]] + rest) == if k in Keys(fields) then Keys(fields) else Keys(fields) + [k]
  {
    var head, tail := fields[0], fields[1..];
    assert fields == [head] + tail;
    KeysCons(head, tail);
    KeysCons(head, rest);
    if k !in Keys(tail) {
      assert k !in [head.key] + Keys(tail);
      assert [head.key] + (Keys(tail) + [k]) == ([head.key] + Keys(tail)) + [k];
    }
  }

  /** Putting the first property replaces its value in place. */
  lemma PutHead(head: Field, tail: seq<Field>, v: Value)
    ensures Put([head] + tail, head.key, v) == [Field(head.key, v)] + tail
  {
    assert ([head] + tail)[1..] == tail;
  }

  /** Putting any other property leaves the first one where it is. */
  lemma PutPastHead(head: Field, tail: seq<Field>, k: string, v: Value)
    requires head.key != k
    ensures Put([head] + tail, k, v) == [head] + Put(tail, k, v)
  {
    assert ([head] + tail)[1..] == tail;
  }

  /** Distinct names are those of a sequence of distinct keys. */
  lemma DistinctKeysOfKeys(fields: seq<Field>, g: seq<Field>)
    requires Keys(fields) == Keys(g)
    ensures DistinctKeys(fields) <==> DistinctKeys(g)
  {
    assert forall i :: 0 <= i < |fields| ==> fields[i].key == Keys(g)[i] == g[i].key;
  }

  /** A property in front of distinctly named ones, under a name of its
      own, keeps the names distinct. */
  lemma DistinctKeysCons(head: Field, tail: seq<Field>)
    requires head.key !in Keys(tail) && DistinctKeys(tail)
    ensures DistinctKeys([head] + tail)
  {
    var r := [head] + tail;
    forall i, j | 0 <= i < j < |r| ensures r[i].key != r[j].key {
      assert r[j] == tail[j - 1];
      if i == 0 {
        assert Keys(tail)[j - 1] == tail[j - 1].key;
      } else {
        assert r[i] == tail[i - 1];
      }
    }
  }

  /** Putting a property keeps the names distinct. */
  lemma PutDistinct(fields: seq<Field>, k: string, v: Value)
    requires DistinctKeys(fields)
    ensures DistinctKeys(Put(fields, k, v))
  {
    var r := Put(fields, k, v);
    if k in Keys(fields) {
      DistinctKeysOfKeys(fields, r);
    } else {
      forall i, j | 0 <= i < j < |r| ensures r[i].key != r[j].key {
        assert r[i].key == Keys(r)[i] && r[j].key == Keys(r)[j];
        if j == |fields| {
          assert Keys(r)[i] == Keys(fields)[i];
        } else {
          assert Keys(r)[i] == Keys(fields)[i] && Keys(r)[j] == Keys(fields)[j];
        }
      }
    }
  }

  /** `{ ...a, ...b }`: `b`'s properties are put into `a` one after another. */
  function Assign(a: seq<Field>, b: seq<Field>): (r: seq<Field>)
    decreases |b|
  {
    if b == [] then a else Assign(Put(a, b[0].key, b[0].value), b[1..])
  }

  /** After a spread, a property has `b`'s value if `b` has it and `a`'s
      value otherwise. */
  lemma {:induction false} AssignGet(a: seq<Field>, b: seq<Field>, k: string)
    requires DistinctKeys(b)
    ensures Get(Assign(a, b), k) == if k in Keys(b) then Get(b, k) else Get(a, k)
    decreases |b|
  {
    if b != [] {
      var a' := Put(a, b[0].key, b[0].value);
      assert DistinctKeys(b[1..]);
      AssignGet(a', b[1..], k);
      assert Assign(a, b) == Assign(a', b[1..]);
      assert Keys(b) == [b[0].key] + Keys(b[1..]);
      if k == b[0].key {
        assert k !in Keys(b[1..]) by {
          forall i | 0 <= i < |b| - 1 ensures Keys(b[1..])[i] != k {
            assert Keys(b[1..])[i] == b[i + 1].key;
          }
        }
        assert Get(a', k) == b[0].value == Get(b, k);
      } else {
        assert Get(b, k) == Get(b[1..], k);
        assert Get(a', k) == Get(a, k);
      }
    }
  }

  /** A spread has the names of both objects, and no name twice. */
  lemma {:induction false} AssignKeys(a: seq<Field>, b: seq<Field>)
    ensures forall k :: k in Keys(Assign(a, b)) <==> k in Keys(a) || k in Keys(b)
    ensures DistinctKeys(a) ==> DistinctKeys(Assign(a, b))
    decreases |b|
  {
    if b != [] {
      var a' := Put(a, b[0].key, b[0].value);
      AssignKeys(a', b[1..]);
      assert Keys(b) == [b[0].key] + Keys(b[1..]);
      if DistinctKeys(a) { PutDistinct(a, b[0].key, b[0].value); }
    }
  }

  // ---------------------------------------------------------------------------
  // Conversions to text

  /** `String(v)`, also what a template literal inserts for `${v}`. Arrays
      convert as `join(',')`, with `null` and `undefined` elements empty. */
  function ToStr(v: Value): string
    decreases v
  {
    match v
    case Undefined => "undefined"
    case Null => "null"
    case Bool(b) => if b then "true" else "false"
    case Num(n) => IntToString(n)
    case Str(s) => s
    case Arr(items) =>
      Join(seq(|items|, i requires 0 <= i < |items| =>
             if items[i].Undefined? || items[i].Null? then "" else ToStr(items[i])), ",")
    case Obj(_) => "[object Object]"
    case File(_) => "[object File]"
  }

  /** `items.join(sep)`. */
  function JoinValues(items: seq<Value>, sep: string): string {
    Join(seq(|items|, i requires 0 <= i < |items| =>
           if items[i].Undefined? || items[i].Null? then "" else ToStr(items[i])), sep)
  }

  /** Joining two or more values gives the first one's text, the
      separator, and the join of the rest. */
  lemma JoinValuesCons(items: seq<Value>, sep: string)
    ensures |items| >= 2 ==>
            JoinValues(items, sep)
            == (if items[0].Undefined? || items[0].Null? then "" else ToStr(items[0])) + sep + JoinValues(items[1..], sep)
  {
    if |items| >= 2 {
      var texts := seq(|items|, i requires 0 <= i < |items| =>
                     if items[i].Undefined? || items[i].Null? then "" else ToStr(items[i]));
      var rest := items[1..];
      assert texts[1..] == seq(|rest|, i requires 0 <= i < |rest| =>
                             if rest[i].Undefined? || rest[i].Null? then "" else ToStr(rest[i]));
    }
  }

  /** `${v || ''}` in a template literal. */
  function Interpolate(v: Value): string {
    ToStr(OrEmpty(v))
  }

  /** The lower-case hexadecimal digit for `d`. */
  function HexDigit(d: nat): (r: char)
    requires d < 16
    ensures HexValue(r) == d
  {
    if d < 10 then ('0' as int + d) as char else ('a' as int + d - 10) as char
  }

  /** How `JSON.stringify` writes one character inside a string literal. */
  function EscapeChar(c: char): string {
    if c == '"' then "\\\""
    else if c == '\\' then "\\\\"
    else if c == '\U{0008}' then "\\b"
    else if c == '\U{000C}' then "\\f"
    else if c == '\n' then "\\n"
    else if c == '\r' then "\\r"
    else if c == '\t' then "\\t"
    else if c < ' ' then "\\u00" + [HexDigit(c as nat / 16), HexDigit(c as nat % 16)]
    else [c]
  }

  function Escape(s: string): string
    decreases |s|
  {
    if s == [] then "" else EscapeChar(s[0]) + Escape(s[1..])
  }

  /** `JSON.stringify` of a string. */
  function Quote(s: string): string {
    "\"" + Escape(s) + "\""
  }

  /** The value of a lower-case hexadecimal digit. */
  function HexValue(c: char): nat {
    if '0' <= c <= '9' then (c - '0') as nat
    else if 'a' <= c <= 'f' then (c - 'a') as nat + 10
    else 0
  }

  /** Reads the escapes `Escape` writes back into characters. A `\u00XX`
      escape is read from its last two hexadecimal digits, which is all
      `Escape` uses. */
  function Unescape(t: string): string
    decreases |t|
  {
    if t == [] then []
    else if t[0] != '\\' || |t| == 1 then [t[0]] + Unescape(t[1..])
    else if t[1] == 'u' && |t| >= 6 then [(HexValue(t[4]) * 16 + HexValue(t[5])) as char] + Unescape(t[6..])
    else
      var c := match t[1]
               case 'b' => '\U{0008}'
               case 'f' => '\U{000C}'
               case 'n' => '\n'
               case 'r' => '\r'
               case 't' => '\t'
               case other => other;
      [c] + Unescape(t[2..])
  }

  /** One escaped character is read back as itself. */
  lemma UnescapeChar(c: char, rest: string)
    ensures Unescape(EscapeChar(c) + rest) == [c] + Unescape(rest)
  {
    var t := EscapeChar(c) + rest;
    if c == '"' || c == '\\' || c == '\U{0008}' || c == '\U{000C}' || c == '\n' || c == '\r' || c == '\t' {
      assert t[0] == '\\' && t[2..] == rest;
    } else if c < ' ' {
      var d := c as nat;
      assert t[0] == '\\' && t[1] == 'u' && t[6..] == rest;
    } else {
      assert t[0] == c && t[1..] == rest;
    }
  }

  /** What `JSON.stringify` writes for a string reads back as that string:
      the escapes lose nothing. */
  lemma {:induction false} UnescapeEscape(s: string)
    ensures Unescape(Escape(s)) == s
    decreases |s|
  {
    if s != [] {
      UnescapeEscape(s[1..]);
      UnescapeChar(s[0], Escape(s[1..]));
      assert [s[0]] + s[1..] == s;
    }
  }

  /** `JSON.stringify` of a string loses nothing: the text is quoted, and
      reading its escapes back with `Unescape` between the quotes gives `s`.
      (`Unescape` reads only the escapes `Escape` writes; it is not a full
      `JSON.parse`.) */
  lemma StringifyStringReadsBack(s: string)
    ensures var t := Stringify(Str(s));
            && |t| >= 2 && t[0] == '"' && t[|t| - 1] == '"'
            && Unescape(t[1..|t| - 1]) == s
  {
    var t := Stringify(Str(s));
    assert t == "\"" + Escape(s) + "\"";
    assert t[1..|t| - 1] == Escape(s);
    UnescapeEscape(s);
  }

  /** `JSON.stringify(v)` for the values the pages stringify (arrays, objects,
      `null`, files). `undefined` elements of an array become `null` and
      `undefined` properties of an object are left out; a `File` has no own
      enumerable properties and becomes `{}`. */
  function Stringify(v: Value): string
    decreases v
  {
    match v
    case Undefined => "null"
    case Null => "null"
    case Bool(b) => if b then "true" else "false"
    case Num(n) => IntToString(n)
    case Str(s) => Quote(s)
    case Arr(items) =>
      "[" + Join(seq(|items|, i requires 0 <= i < |items| => Stringify(items[i])), ",") + "]"
    case Obj(fields) =>
      var members := seq(|fields|, i requires 0 <= i < |fields| =>
                       if fields[i].value.Undefined? then ""
                       else Quote(fields[i].key) + ":" + Stringify(fields[i].value));
      "{" + Join(NonEmpty(members), ",") + "}"
    case File(_) => "{}"
  }

  /** The non-empty texts, in order. */
  function NonEmpty(texts: seq<string>): (r: seq<string>)
    ensures forall i :: 0 <= i < |r| ==> r[i] != "" && r[i] in texts
    decreases |texts|
  {
    if texts == [] then []
    else (if texts[0] == "" then [] else [texts[0]]) + NonEmpty(texts[1..])
  }
}
