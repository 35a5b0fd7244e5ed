/** The nested lookup of register.cpp inverts the printing of nested objects. */
module JsonLookup {
  import opened Bytes
  import opened Strings
  import opened JsonScan

  /** JSON values of the API's answers; `Bare` stands for numbers, booleans and null. */
  datatype Value = Text(s: string) | Bare(s: string) | Object(fields: Fields) | List(items: Items)

  datatype Items = NoItems | Item(value: Value, rest: Items)

  datatype Fields = NoFields | Field(key: string, value: Value, rest: Fields)

  /** No quotes, braces or backslashes. */
  predicate Plain(s: string) {
    forall k :: 0 <= k < |s| ==> s[k] !in {'"', '{', '}', '\\'}
  }

  predicate GoodValue(v: Value) {
    match v
    case Text(s) => Plain(s)
    case Bare(s) => Plain(s)
    case Object(fields) => GoodFields(fields)
    case List(items) => GoodItems(items)
  }

  predicate GoodItems(vs: Items) {
    match vs
    case NoItems => true
    case Item(value, rest) => GoodValue(value) && GoodItems(rest)
  }

  predicate GoodFields(fs: Fields) {
    match fs
    case NoFields => true
    case Field(key, value, rest) => Plain(key) && GoodValue(value) && GoodFields(rest)
  }

  function PrintValue(v: Value): string {
    match v
    case Text(s) => Quoted(s)
    case Bare(s) => s
    case Object(fields) => "{" + (PrintFields(fields) + "}")
    case List(items) => "[" + (PrintItems(items) + "]")
  }

  function PrintItems(vs: Items): string {
    match vs
    case NoItems => ""
    case Item(value, rest) => PrintValue(value) + ((if rest.NoItems? then "" else ",") + PrintItems(rest))
  }

  function PrintFields(fs: Fields): string {
    match fs
    case NoFields => ""
    case Field(key, value, rest) =>
      Quoted(key) + (":" + (PrintValue(value) + ((if rest.NoFields? then "" else ",") + PrintFields(rest))))
  }

  // ---- the brace matcher ----

  predicate NoBraces(s: string) {
    forall k :: 0 <= k < |s| ==> s[k] != '{' && s[k] != '}'
  }

  lemma {:induction false} ScanPassesText(s: string, rest: string, depth: int)
    requires NoBraces(s) && depth > 0
    ensures Scan(s + rest, depth) == |s| + Scan(rest, depth)
    decreases |s|
  {
    if |s| == 0 {
      assert s + rest == rest;
    } else {
      assert (s + rest)[1..] == s[1..] + rest;
      ScanPassesText(s[1..], rest, depth);
    }
  }

  /** A printed value leaves the depth as it was. */
  lemma {:induction false} ScanPassesValue(v: Value, rest: string, depth: int)
    requires GoodValue(v) && depth > 0
    ensures Scan(PrintValue(v) + rest, depth) == |PrintValue(v)| + Scan(rest, depth)
    decreases v
  {
    match v
    case Text(s) => ScanPassesText(Quoted(s), rest, depth);
    case Bare(s) => ScanPassesText(s, rest, depth);
    case Object(fields) =>
      ScanPassesFields(fields, "}" + rest, depth + 1);
      hide PrintFields;
      ScanPassesBraces(PrintFields(fields), rest, depth);
    case List(items) =>
      ScanPassesItems(items, "]" + rest, depth);
      hide PrintItems, Scan;
      ScanPassesBrackets(PrintItems(items), rest, depth);
  }

  lemma ScanPassesBraces(inside: string, rest: string, depth: int)
    requires depth > 0 && Scan(inside + ("}" + rest), depth + 1) == |inside| + Scan("}" + rest, depth + 1)
    ensures var v := "{" + (inside + "}"); Scan(v + rest, depth) == |v| + Scan(rest, depth)
  {
    var text := "{" + (inside + "}") + rest;
    assert text[0] == '{' && text[1..] == inside + ("}" + rest);
    assert ("}" + rest)[1..] == rest;
  }

  lemma ScanPassesBrackets(inside: string, rest: string, depth: int)
    requires depth > 0 && Scan(inside + ("]" + rest), depth) == |inside| + Scan("]" + rest, depth)
    ensures var v := "[" + (inside + "]"); Scan(v + rest, depth) == |v| + Scan(rest, depth)
  {
    hide Scan;
    assert "[" + (inside + "]") + rest == "[" + (inside + ("]" + rest));
    ScanPassesText("[", inside + ("]" + rest), depth);
    ScanPassesText("]", rest, depth);
  }

  lemma {:induction false} ScanPassesItems(vs: Items, rest: string, depth: int)
    requires GoodItems(vs) && depth > 0
    ensures Scan(PrintItems(vs) + rest, depth) == |PrintItems(vs)| + Scan(rest, depth)
    decreases vs
  {
    match vs
    case NoItems => assert "" + rest == rest;
    case Item(value, more) =>
      hide PrintValue, Scan;
      var comma := if more.NoItems? then "" else ",";
      var tail2 := PrintItems(more) + rest;
      var tail1 := comma + tail2;
      ScanPassesItems(more, rest, depth);
      ScanPassesText(comma, tail2, depth);
      ScanPassesValue(value, tail1, depth);
      Regroup(PrintValue(value), comma, PrintItems(more), rest);
  }

  lemma {:induction false} ScanPassesFields(fs: Fields, rest: string, depth: int)
    requires GoodFields(fs) && depth > 0
    ensures Scan(PrintFields(fs) + rest, depth) == |PrintFields(fs)| + Scan(rest, depth)
    decreases fs
  {
    match fs
    case NoFields => assert "" + rest == rest;
    case Field(key, value, more) =>
      hide PrintValue, Scan;
      var comma := if more.NoFields? then "" else ",";
      var tail3 := PrintFields(more) + rest;
      var tail2 := comma + tail3;
      var tail1 := PrintValue(value) + tail2;
      ScanPassesFields(more, rest, depth);
      ScanPassesText(comma, tail3, depth);
      ScanPassesValue(value, tail2, depth);
      ScanPassesText(Quoted(key) + ":", tail1, depth);
      Reassociate(Quoted(key), ":", PrintValue(value), comma, PrintFields(more), rest);
  }

  lemma Regroup(a: string, b: string, c: string, d: string)
    ensures a + (b + c) + d == a + (b + (c + d))
  {
  }

  lemma Reassociate(a: string, b: string, c: string, d: string, e: string, f: string)
    ensures a + (b + (c + (d + e))) + f == a + b + (c + (d + (e + f)))
  {
  }

  /** The matcher stops exactly behind the object's own closing brace. */
  lemma ObjectIsFound(json: string, before: string, fs: Fields, after: string)
    requires json == before + (PrintValue(Object(fs)) + after) && GoodFields(fs)
    ensures ObjectAt(json, |before|) == PrintValue(Object(fs))
  {
    var printed := PrintValue(Object(fs));
    assert json[|before| + 1..] == PrintFields(fs) + ("}" + after);
    ScanPassesFields(fs, "}" + after, 1);
    assert Scan("}" + after, 1) == 1;
    assert json[|before|..|before| + |printed|] == printed;
  }

  // ---- searching for a key ----

  /**
   The search for `"key"` ends at the member behind `before` exactly when there is no occurrence in `before`
   and the member's own opening quote: none can end farther on.
   */
  lemma KeyFoundIff(s: string, before: string, key: string, after: string)
    requires s == before + (Quoted(key) + after) && Plain(key)
    ensures Find(s, Quoted(key), 0) == Some(|before|) <==> !Occurs(before + "\"", Quoted(key))
  {
    hide Find;
    var q, b, more := Quoted(key), before + "\"", (Quoted(key) + after)[1..];
    assert s == b + more;
    forall i | 0 <= i < |before| ensures OccursAt(s, q, i) <==> OccursAt(b, q, i) {
      if i + |q| <= |b| {
        OccursInPrefix(b, more, q, i);
      } else {
        var j := |before| - i;
        assert s[i + j] == '"' && q[j] == key[j - 1];
        OccurrenceChar(s, q, i, j);
      }
    }
    assert s[|before|..|before| + |q|] == q;
    FindIsFirst(s, q, 0);
    if !Occurs(b, q) {
      FindUnique(s, q, 0, |before|);
    }
  }

  /** The first `c` behind a text without `c`. */
  lemma CharFoundBehind(s: string, before: string, text: string, c: char, after: string)
    requires s == before + (text + ([c] + after)) && c !in text
    ensures FindChar(s, c, |before|) == Some(|before| + |text|)
  {
    assert s[|before|..|before| + |text|] == text;
    FindCharUnique(s, c, |before|, |before| + |text|);
  }

  /** What a member with a string value looks like. */
  function StringMember(key: string, value: string): string {
    Quoted(key) + ":" + Quoted(value)
  }

  /** The three single-character searches end at the first quoted text behind the first colon. */
  lemma QuotedTextFound(json: string, lead: string, front: string, gap: string, word: string, after: string)
    requires json == lead + (front + (":" + (gap + ("\"" + (word + ("\"" + after))))))
    requires ':' !in front && '"' !in gap && '"' !in word
    ensures ValueBehind(json, |lead|) == word
  {
    hide FindChar;
    var a, b := lead + (front + ":"), lead + (front + ":") + (gap + "\"");
    var c := word + ("\"" + after);
    assert json == lead + (front + ([':'] + (gap + ("\"" + c))));
    CharFoundBehind(json, lead, front, ':', gap + ("\"" + c));
    assert json == a + (gap + (['"'] + c));
    CharFoundBehind(json, a, gap, '"', c);
    assert json == b + (word + (['"'] + after));
    CharFoundBehind(json, b, word, '"', after);
    SliceBetween(json, b, word, ['"'] + after);
  }

  lemma ValueFoundBehind(json: string, lead: string, value: string, after: string)
    requires json == lead + (":\"" + (value + ("\"" + after))) && '"' !in value
    ensures ValueBehind(json, |lead|) == value
  {
    assert json == lead + ("" + (":" + ("" + ("\"" + (value + ("\"" + after))))));
    QuotedTextFound(json, lead, "", "", value, after);
  }

  /** The same text, cut in front of the key and behind it. */
  lemma MemberParts(json: string, before: string, key: string, value: string, after: string)
    requires json == before + (StringMember(key, value) + after)
    ensures json == before + (Quoted(key) + (":" + Quoted(value) + after))
    ensures json == (before + Quoted(key)) + (":\"" + (value + ("\"" + after)))
  {
  }

  /** The lookup returns the value of the first member with that key. */
  lemma StringIsFound(json: string, before: string, key: string, value: string, after: string)
    requires json == before + (StringMember(key, value) + after)
    requires Plain(key) && Plain(value) && !Occurs(before + "\"", Quoted(key))
    ensures JsonString(json, key) == value
  {
    assert '"' !in value;
    MemberParts(json, before, key, value, after);
    hide FindChar, StringMember, Quoted, Plain, Occurs, OccursAt, ValueBehind;
    KeyFoundIff(json, before, key, ":" + Quoted(value) + after);
    ValueFoundBehind(json, before + Quoted(key), value, after);
  }

  lemma SliceBetween(s: string, a: string, b: string, c: string)
    requires s == a + (b + c)
    ensures s[|a|..|a| + |b|] == b
  {
  }

  lemma OuterBrace(json: string, before: string, q: string, gap: string, inside: string, after: string)
    requires json == before + (q + (gap + ("{" + inside + after))) && '{' !in q && '{' !in gap
    ensures FindChar(json, '{', |before|) == Some(|before| + |q| + |gap|)
  {
    var lead := q + gap;
    assert json == before + (lead + (['{'] + (inside + after)));
    CharFoundBehind(json, before, lead, '{', inside + after);
  }

  lemma OuterCut(json: string, before: string, q: string, gap: string, fs: Fields, after: string)
    requires json == before + (q + (gap + (PrintValue(Object(fs)) + after))) && GoodFields(fs)
    ensures var brace := |before| + |q| + |gap|; brace < |json| && ObjectAt(json, brace) == PrintValue(Object(fs))
  {
    hide ObjectAt, GoodFields, PrintFields;
    assert |PrintValue(Object(fs))| > 0;
    hide PrintValue;
    var lead := before + (q + gap);
    assert json == lead + (PrintValue(Object(fs)) + after);
    ObjectIsFound(json, lead, fs, after);
  }

  /** The outer key leads to exactly the first object behind it, the member's own or not. */
  lemma OuterObject(json: string, before: string, outer: string, gap: string, fs: Fields, after: string,
                    q: string, printed: string, inside: string)
    requires q == Quoted(outer) && printed == PrintValue(Object(fs)) && printed == "{" + inside
    requires '{' !in q && '{' !in gap
    requires json == before + (q + (gap + (printed + after)))
    requires Plain(outer) && !Occurs(before + "\"", q) && GoodFields(fs)
    ensures Find(json, q, 0) == Some(|before|)
    ensures FindChar(json, '{', |before|) == Some(|before| + |q| + |gap|)
    ensures |before| + |q| + |gap| < |json| && ObjectAt(json, |before| + |q| + |gap|) == printed
  {
    hide PrintValue, Quoted, Plain, Occurs, OccursAt, ObjectAt, GoodFields, PrintFields;
    KeyFoundIff(json, before, outer, gap + (printed + after));
    OuterBrace(json, before, q, gap, inside, after);
    OuterCut(json, before, q, gap, fs, after);
  }

  /** The name and the braces around a member that is an object. */
  lemma OuterShape(outer: string, fs: Fields)
    requires Plain(outer)
    ensures PrintValue(Object(fs)) == "{" + (PrintFields(fs) + "}") && '{' !in Quoted(outer)
  {
  }

  /**
   Nested lookup inverts printing: when no `"outer"` occurs before the outer member and no `"inner"` before
   the inner one inside it (their opening quotes included), at whatever depth, the scanner cuts out exactly
   the outer member's object and the lookup returns the inner member's value.
   */
  lemma NestedLookup(json: string, before: string, outer: string, fs: Fields, after: string,
                     front: string, inner: string, value: string, back: string)
    requires json == before + (Quoted(outer) + (":" + (PrintValue(Object(fs)) + after)))
    requires Plain(outer) && !Occurs(before + "\"", Quoted(outer))
    requires GoodFields(fs)
    requires PrintValue(Object(fs)) == front + (StringMember(inner, value) + back)
    requires Plain(inner) && Plain(value) && !Occurs(front + "\"", Quoted(inner))
    ensures NestedString(json, outer, inner) == value
  {
    hide JsonString, ObjectAt, PrintValue, StringMember, Quoted, Plain, Occurs;
    OuterShape(outer, fs);
    OuterObject(json, before, outer, ":", fs, after, Quoted(outer), PrintValue(Object(fs)), PrintFields(fs) + "}");
    StringIsFound(PrintValue(Object(fs)), front, inner, value, back);
  }

  // ---- in terms of the tree ----

  function Concat(a: Fields, b: Fields): Fields {
    match a
    case NoFields => b
    case Field(key, value, rest) => Field(key, value, Concat(rest, b))
  }

  /** An object's text up to a member that stands behind the members `a`. */
  function Opened(a: Fields): (s: string) {
    "{" + (if a.NoFields? then "" else PrintFields(a) + ",")
  }

  lemma {:induction false} PrintConcat(a: Fields, b: Fields)
    requires !a.NoFields? && !b.NoFields?
    ensures PrintFields(Concat(a, b)) == PrintFields(a) + ("," + PrintFields(b))
  {
    var k, v, tail := Quoted(a.key), PrintValue(a.value), "," + PrintFields(b);
    var rest := Concat(a.rest, b);
    assert PrintFields(Concat(a, b)) == k + (":" + (v + ("," + PrintFields(rest))));
    if a.rest.NoFields? {
      assert PrintFields(a) == k + (":" + (v + ("" + "")));
      Behind(k, v, "", "", tail);
    } else {
      PrintConcat(a.rest, b);
      assert PrintFields(a) == k + (":" + (v + ("," + PrintFields(a.rest))));
      hide PrintValue, PrintFields, Quoted;
      Behind(k, v, ",", PrintFields(a.rest), tail);
    }
  }

  lemma Behind(k: string, v: string, comma: string, more: string, tail: string)
    ensures k + (":" + (v + (comma + more))) + tail == k + (":" + (v + (comma + (more + tail))))
    ensures "" + ("" + tail) == tail
  {
  }

  /** A printed object, cut around one of its members. */
  lemma PrintedAround(a: Fields, key: string, value: Value, b: Fields)
    ensures PrintValue(Object(Concat(a, Field(key, value, b)))) ==
      Opened(a) + (Quoted(key) + (":" + (PrintValue(value)
        + ((if b.NoFields? then "" else ",") + (PrintFields(b) + "}")))))
  {
    var m := Field(key, value, b);
    var comma := if b.NoFields? then "" else ",";
    var k, v, more := Quoted(key), PrintValue(value), PrintFields(b);
    assert PrintFields(m) == k + (":" + (v + (comma + more)));
    if !a.NoFields? {
      PrintConcat(a, m);
    }
    assert PrintValue(Object(Concat(a, m))) == "{" + (PrintFields(Concat(a, m)) + "}");
    hide PrintValue, PrintFields, Quoted, Concat;
    Behind(k, v, comma, more, "}");
    OpenedText("{", PrintFields(a), ",", PrintFields(m), "}");
  }

  lemma OpenedText(a: string, b: string, c: string, d: string, e: string)
    ensures a + (b + (c + d) + e) == a + (b + c) + (d + e)
    ensures a + (d + e) == a + "" + (d + e)
  {
  }

  lemma {:induction false} GoodConcat(a: Fields, b: Fields)
    ensures GoodFields(Concat(a, b)) <==> GoodFields(a) && GoodFields(b)
  {
    if a.Field? {
      GoodConcat(a.rest, b);
    }
  }

  /**
   Looking up `outer` and then `inner` in the printed document of a tree returns the value of that member of
   that object of the tree, when neither name occurs as quoted text before its own member's name.
   */
  lemma LookupInvertsPrint(a: Fields, outer: string, c: Fields, inner: string, value: string, d: Fields, b: Fields)
    requires GoodFields(a) && GoodFields(b) && GoodFields(c) && GoodFields(d) && Plain(value)
    requires Plain(outer) && !Occurs(Opened(a) + "\"", Quoted(outer))
    requires Plain(inner) && !Occurs(Opened(c) + "\"", Quoted(inner))
    ensures var inside := Concat(c, Field(inner, Text(value), d));
      NestedString(PrintValue(Object(Concat(a, Field(outer, Object(inside), b)))), outer, inner) == value
  {
    var inside := Concat(c, Field(inner, Text(value), d));
    PrintedAround(a, outer, Object(inside), b);
    PrintedAround(c, inner, Text(value), d);
    GoodConcat(c, Field(inner, Text(value), d));
    assert PrintValue(Text(value)) == Quoted(value);
    var after := (if b.NoFields? then "" else ",") + (PrintFields(b) + "}");
    var back := (if d.NoFields? then "" else ",") + (PrintFields(d) + "}");
    MemberText(inner, value, back);
    hide PrintValue, PrintFields, Quoted, Opened, Occurs, NestedString, Concat, StringMember;
    NestedLookup(PrintValue(Object(Concat(a, Field(outer, Object(inside), b)))), Opened(a), outer, inside, after,
                 Opened(c), inner, value, back);
  }

  lemma MemberText(key: string, value: string, back: string)
    ensures Quoted(key) + (":" + (Quoted(value) + back)) == StringMember(key, value) + back
  {
  }

  // ---- members of another kind ----

  /** Behind a key whose value is not a string, the lookup returns the next quoted text, whatever it belongs to. */
  lemma NextQuotedText(json: string, before: string, key: string, gap: string, word: string, after: string)
    requires json == before + (Quoted(key) + (":" + (gap + ("\"" + (word + ("\"" + after))))))
    requires Plain(key) && '"' !in gap && '"' !in word && !Occurs(before + "\"", Quoted(key))
    ensures JsonString(json, key) == word
  {
    hide FindChar, Quoted, Plain, Occurs, OccursAt, ValueBehind;
    var tail := ":" + (gap + ("\"" + (word + ("\"" + after))));
    KeyFoundIff(json, before, key, tail);
    assert json == (before + Quoted(key)) + ("" + tail);
    QuotedTextFound(json, before + Quoted(key), "", gap, word, after);
  }

  /** And nothing when no quoted text follows. */
  lemma NoQuotedText(json: string, before: string, key: string, gap: string)
    requires json == before + (Quoted(key) + (":" + gap))
    requires Plain(key) && '"' !in gap && !Occurs(before + "\"", Quoted(key))
    ensures JsonString(json, key) == ""
  {
    hide Occurs, OccursAt;
    KeyFoundIff(json, before, key, ":" + gap);
    var lead := before + Quoted(key);
    assert json == lead + ("" + ([':'] + gap));
    hide Plain, Quoted;
    CharFoundBehind(json, lead, "", ':', gap);
    assert json[|lead| + 1..] == gap;
    NoCharBehind(json, '"', |lead| + 1);
  }

  lemma NoCharBehind(s: string, c: char, from: nat)
    requires from <= |s| && c !in s[from..]
    ensures FindChar(s, c, from) == None
  {
    assert forall k :: from <= k < |s| ==> s[k] == s[from..][k - from];
  }

  /** For a number, a boolean or null, that is the name of the next member. */
  lemma BareGivesNextName(a: Fields, key: string, bare: string, next: string, value: Value, b: Fields)
    requires Plain(key) && Plain(bare) && Plain(next) && !Occurs(Opened(a) + "\"", Quoted(key))
    ensures JsonString(PrintValue(Object(Concat(a, Field(key, Bare(bare), Field(next, value, b))))), key) == next
  {
    var m := Field(next, value, b);
    var json := PrintValue(Object(Concat(a, Field(key, Bare(bare), m))));
    PrintedAround(a, key, Bare(bare), m);
    var rest := ":" + (PrintValue(value) + ((if b.NoFields? then "" else ",") + PrintFields(b)));
    assert PrintFields(m) == Quoted(next) + rest;
    assert PrintValue(Bare(bare)) == bare;
    assert '"' !in bare && '"' !in next;
    QuotedParts(bare, next, rest);
    hide Quoted, Opened, Concat, Plain, Occurs, PrintValue, PrintFields;
    NextQuotedText(json, Opened(a), key, bare + ",", next, rest + "}");
  }

  lemma QuotedParts(bare: string, next: string, rest: string)
    ensures bare + ("," + ((Quoted(next) + rest) + "}")) == (bare + ",") + ("\"" + (next + ("\"" + (rest + "}"))))
  {
  }

  /** The value of `id` in `{"id":null,"token":"x"}` is found to be `token`. */
  lemma NullGivesToken()
    ensures JsonString("{\"id\":null,\"token\":\"x\"}", "id") == "token"
  {
    var json, q := "{\"id\":null,\"token\":\"x\"}", Quoted("id");
    assert q == "\"id\"";
    forall i: nat ensures !OccursAt("{" + "\"", q, i) {
      assert |"{" + "\""| == 2;
    }
    assert json == "{" + (q + (":" + ("null," + ("\"" + ("token" + ("\"" + ":\"x\"}"))))));
    hide Quoted, Occurs, JsonString;
    NextQuotedText(json, "{", "id", "null,", "token", ":\"x\"}");
  }

  /** Behind an outer key whose value is not an object, the nested lookup goes to the next object there is. */
  lemma NextObject(json: string, before: string, outer: string, gap: string, fs: Fields, after: string, inner: string)
    requires json == before + (Quoted(outer) + (gap + (PrintValue(Object(fs)) + after)))
    requires Plain(outer) && '{' !in gap && !Occurs(before + "\"", Quoted(outer)) && GoodFields(fs)
    ensures NestedString(json, outer, inner) == JsonString(PrintValue(Object(fs)), inner)
  {
    hide JsonString, ObjectAt, PrintValue, Quoted, Plain, Occurs;
    OuterShape(outer, fs);
    OuterObject(json, before, outer, gap, fs, after, Quoted(outer), PrintValue(Object(fs)), PrintFields(fs) + "}");
  }

  /** And finds nothing when there is none. */
  lemma NoObject(json: string, before: string, outer: string, gap: string, inner: string)
    requires json == before + (Quoted(outer) + gap)
    requires Plain(outer) && '{' !in gap && !Occurs(before + "\"", Quoted(outer))
    ensures NestedString(json, outer, inner) == ""
  {
    KeyFoundIff(json, before, outer, gap);
    assert '{' !in Quoted(outer);
    assert json[|before|..] == Quoted(outer) + gap;
    hide Occurs, OccursAt, Quoted, JsonString;
    NoCharBehind(json, '{', |before|);
  }
}
