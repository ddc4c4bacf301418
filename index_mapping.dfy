/** Mapping derivation of the index administration (EsIndexAdmin): the
    Elasticsearch property mapping derived from a document class, and the
    path pattern that marks a mapping change as a field-alias change. Java
    reflection is replaced by explicit field descriptors. */
module IndexMapping {
  import opened Wrappers

  /** A JSON value of a mapping. */
  datatype Json = JStr(s: string) | JBool(b: bool) | JObj(fields: map<string, Json>)

  datatype MappingError =
    | NotAStringField(field: string)
    | TextAndKeyword(field: string)

  // ---------------------------------------------------------------------
  // The field-alias change pattern

  predicate WordChar(c: char) {
    'a' <= c <= 'z' || 'A' <= c <= 'Z' || '0' <= c <= '9' || c == '_'
  }

  /** A match of `[a-zA-Z0-9_]+`. */
  predicate Word(w: string) {
    |w| > 0 && forall i :: 0 <= i < |w| ==> WordChar(w[i])
  }

  predicate AllWords(ws: seq<string>) {
    forall i :: 0 <= i < |ws| ==> Word(ws[i])
  }

  predicate NoSlash(w: string) {
    forall i :: 0 <= i < |w| ==> w[i] != '/'
  }

  /** The segments of `s` between slashes. */
  function Split(s: string): (r: seq<string>)
    ensures |r| >= 1
    decreases |s|
  {
    if s == [] then [""]
    else if s[0] == '/' then [""] + Split(s[1..])
    else
      var rest := Split(s[1..]);
      [[s[0]] + rest[0]] + rest[1..]
  }

  function Join(segs: seq<string>): string
    requires |segs| >= 1
    decreases |segs|
  {
    if |segs| == 1 then segs[0] else segs[0] + "/" + Join(segs[1..])
  }

  /** The strings matched in full by
      `properties(/[a-zA-Z0-9_]+)+/fields(/[a-zA-Z0-9_]+)?`: "properties",
      one or more words, "fields" and at most one more word, joined by
      slashes. */
  ghost predicate AliasPattern(p: string) {
    exists mids: seq<string>, sub: seq<string> ::
      |mids| >= 1 && |sub| <= 1 && AllWords(mids) && AllWords(sub)
      && p == Join(["properties"] + mids + ["fields"] + sub)
  }

  /** Decides the pattern on the slash-separated segments of a path. */
  predicate IsFieldAliasPath(p: string) {
    var segs := Split(p);
    |segs| >= 3 && segs[0] == "properties" && AllWords(segs[1..])
    && (segs[|segs| - 1] == "fields" || (|segs| >= 4 && segs[|segs| - 2] == "fields"))
  }

  /** `hasFieldAliasChange`: some compatible change path matches in full. */
  predicate HasFieldAliasChange(paths: set<string>) {
    exists p :: p in paths && IsFieldAliasPath(p)
  }

  /** Joining with an empty first segment puts a slash in front. */
  lemma JoinEmptyFirst(rest: seq<string>)
    requires |rest| >= 1
    ensures Join([""] + rest) == "/" + Join(rest)
  {
    var r := [""] + rest;
    assert r[0] == "" && r[1..] == rest;
  }

  lemma ConcatAssoc(x: string, y: string, z: string, w: string)
    ensures x + y + z + w == x + (y + z + w)
  {
  }

  /** Joining with a character added to the first segment adds it in front. */
  lemma JoinConsFirst(c: char, rest: seq<string>)
    requires |rest| >= 1
    ensures Join([[c] + rest[0]] + rest[1..]) == [c] + Join(rest)
  {
    var r := [[c] + rest[0]] + rest[1..];
    var a := rest[0];
    assert r[0] == [c] + a;
    if |rest| == 1 {
      assert Join(r) == [c] + a;
      assert Join(rest) == a;
    } else {
      var j := Join(rest[1..]);
      assert r[1..] == rest[1..];
      assert Join(r) == ([c] + a) + "/" + j;
      assert Join(rest) == a + "/" + j;
      ConcatAssoc([c], a, "/", j);
    }
  }

  lemma {:induction false} JoinSplit(s: string)
    ensures Join(Split(s)) == s
    decreases |s|
  {
    if s != [] {
      var rest := Split(s[1..]);
      if s[0] == '/' {
        calc {
          Join(Split(s));
          Join([""] + rest);
          { JoinEmptyFirst(rest); }
          "/" + Join(rest);
          { JoinSplit(s[1..]); }
          "/" + s[1..];
          s;
        }
      } else {
        calc {
          Join(Split(s));
          Join([[s[0]] + rest[0]] + rest[1..]);
          { JoinConsFirst(s[0], rest); }
          [s[0]] + Join(rest);
          { JoinSplit(s[1..]); }
          [s[0]] + s[1..];
          s;
        }
      }
    }
  }

  lemma {:induction false} SplitNoSlash(a: string)
    requires NoSlash(a)
    ensures Split(a) == [a]
    decreases |a|
  {
    if a != [] {
      SplitNoSlash(a[1..]);
      assert [a[0]] + a[1..] == a;
    }
  }

  lemma {:induction false} SplitAfterSegment(a: string, rest: string)
    requires NoSlash(a)
    ensures Split(a + "/" + rest) == [a] + Split(rest)
    decreases |a|
  {
    if a == [] {
      assert a + "/" + rest == "/" + rest;
      assert ("/" + rest)[1..] == rest;
    } else {
      var s := a + "/" + rest;
      assert s[0] == a[0] && s[1..] == a[1..] + "/" + rest;
      SplitAfterSegment(a[1..], rest);
      assert [a[0]] + a[1..] == a;
    }
  }

  lemma {:induction false} SplitJoin(segs: seq<string>)
    requires |segs| >= 1
    requires forall i :: 0 <= i < |segs| ==> NoSlash(segs[i])
    ensures Split(Join(segs)) == segs
    decreases |segs|
  {
    if |segs| == 1 {
      SplitNoSlash(segs[0]);
    } else {
      SplitJoin(segs[1..]);
      SplitAfterSegment(segs[0], Join(segs[1..]));
    }
  }

  lemma WordHasNoSlash(w: string)
    requires Word(w)
    ensures NoSlash(w)
  {
    forall i | 0 <= i < |w| ensures w[i] != '/' {
      assert WordChar(w[i]);
    }
  }

  lemma AllWordsSlice(ws: seq<string>, lo: nat, hi: nat)
    requires AllWords(ws) && lo <= hi <= |ws|
    ensures AllWords(ws[lo..hi])
  {
    forall i | 0 <= i < hi - lo ensures Word(ws[lo..hi][i]) {
      assert ws[lo..hi][i] == ws[lo + i];
    }
  }

  lemma SegmentTestIsSound(p: string)
    requires IsFieldAliasPath(p)
    ensures AliasPattern(p)
  {
    var segs := Split(p);
    var n := |segs|;
    var tail := segs[1..];
    assert AllWords(tail);
    JoinSplit(p);
    var mids: seq<string>, sub: seq<string>;
    if segs[n - 1] == "fields" {
      mids, sub := tail[..n - 2], [];
      AllWordsSlice(tail, 0, n - 2);
      assert segs == ["properties"] + mids + ["fields"] + sub;
    } else {
      mids, sub := tail[..n - 3], [tail[n - 2]];
      AllWordsSlice(tail, 0, n - 3);
      AllWordsSlice(tail, n - 2, n - 1);
      assert tail[n - 2..n - 1] == sub;
      assert segs == ["properties"] + mids + ["fields"] + sub;
    }
    assert |mids| >= 1 && |sub| <= 1 && AllWords(mids) && AllWords(sub)
      && p == Join(["properties"] + mids + ["fields"] + sub);
  }

  /** The segments of a pattern match: no slash in any, a word in all but
      the first. */
  lemma PatternSegments(mids: seq<string>, sub: seq<string>)
    requires |sub| <= 1 && AllWords(mids) && AllWords(sub)
    ensures var segs := ["properties"] + mids + ["fields"] + sub;
      (forall i :: 0 <= i < |segs| ==> NoSlash(segs[i])) && AllWords(segs[1..])
  {
    var segs := ["properties"] + mids + ["fields"] + sub;
    forall i | 0 <= i < |segs| ensures NoSlash(segs[i]) && (i > 0 ==> Word(segs[i])) {
      if 0 < i <= |mids| {
        assert segs[i] == mids[i - 1];
        WordHasNoSlash(mids[i - 1]);
      } else if i == |mids| + 1 {
        assert segs[i] == "fields";
      } else if i > |mids| + 1 {
        assert segs[i] == sub[0];
        WordHasNoSlash(sub[0]);
      }
    }
    forall i | 0 <= i < |segs[1..]| ensures Word(segs[1..][i]) {
      assert segs[1..][i] == segs[i + 1];
    }
  }

  lemma SegmentTestIsComplete(mids: seq<string>, sub: seq<string>)
    requires |mids| >= 1 && |sub| <= 1 && AllWords(mids) && AllWords(sub)
    ensures IsFieldAliasPath(Join(["properties"] + mids + ["fields"] + sub))
  {
    var segs := ["properties"] + mids + ["fields"] + sub;
    PatternSegments(mids, sub);
    SplitJoin(segs);
    assert segs[0] == "properties";
    if sub == [] {
      assert segs[|segs| - 1] == "fields";
    } else {
      assert segs[|segs| - 2] == "fields";
    }
  }

  /** The segment test decides exactly the pattern. */
  lemma FieldAliasPathMatchesPattern(p: string)
    ensures IsFieldAliasPath(p) <==> AliasPattern(p)
  {
    if IsFieldAliasPath(p) {
      SegmentTestIsSound(p);
    }
    if AliasPattern(p) {
      var mids: seq<string>, sub: seq<string> :|
        |mids| >= 1 && |sub| <= 1 && AllWords(mids) && AllWords(sub)
        && p == Join(["properties"] + mids + ["fields"] + sub);
      SegmentTestIsComplete(mids, sub);
    }
  }

  // ---------------------------------------------------------------------
  // Mapping of a plain field type

  /** What reflection tells about a field's element type (a collection is
      unwrapped to its element type first). */
  datatype JavaType = JavaType(
    isEnum: bool, isBigDecimal: bool, isString: bool,
    isDouble: bool, isFloat: bool, isInt: bool, isShort: bool,
    isDate: bool, isLong: bool, isBoolean: bool,
    hasIpAnnotation: bool, hasStringJsonValue: bool)

  function TypeOnly(t: string): Json {
    JObj(map["type" := JStr(t)])
  }

  const DisabledObject: Json := JObj(map["type" := JStr("object"), "enabled" := JBool(false)])

  /** `addFieldProperties`. */
  function FieldProperties(jt: JavaType): Json {
    if jt.isEnum || jt.isBigDecimal || jt.isString then TypeOnly("keyword")
    else if jt.isDouble then TypeOnly("double")
    else if jt.isFloat then TypeOnly("float")
    else if jt.isInt then TypeOnly("integer")
    else if jt.isShort then TypeOnly("short")
    else if jt.isDate || jt.isLong then TypeOnly("long")
    else if jt.isBoolean then TypeOnly("boolean")
    else if jt.hasIpAnnotation then TypeOnly("ip")
    else if jt.hasStringJsonValue then TypeOnly("keyword")
    else DisabledObject
  }

  /** One row of the type table: a test on the Java type and the mapping
      type it selects. */
  datatype Rule = Rule(applies: JavaType -> bool, esType: string)

  /** The type table in its fixed priority order. */
  function TypeRules(): seq<Rule> {
    [ Rule((jt: JavaType) => jt.isEnum || jt.isBigDecimal || jt.isString, "keyword"),
      Rule((jt: JavaType) => jt.isDouble, "double"),
      Rule((jt: JavaType) => jt.isFloat, "float"),
      Rule((jt: JavaType) => jt.isInt, "integer"),
      Rule((jt: JavaType) => jt.isShort, "short"),
      Rule((jt: JavaType) => jt.isDate || jt.isLong, "long"),
      Rule((jt: JavaType) => jt.isBoolean, "boolean"),
      Rule((jt: JavaType) => jt.hasIpAnnotation, "ip"),
      Rule((jt: JavaType) => jt.hasStringJsonValue, "keyword") ]
  }

  /** The mapping of the first rule that applies; a type no rule applies to
      is stored only in the source, as a disabled object. */
  function FirstRule(rules: seq<Rule>, jt: JavaType): Json
    decreases |rules|
  {
    if rules == [] then DisabledObject
    else if rules[0].applies(jt) then TypeOnly(rules[0].esType)
    else FirstRule(rules[1..], jt)
  }

  /** `addFieldProperties` is the first-match reading of the type table. */
  lemma FieldPropertiesFollowsTable(jt: JavaType)
    ensures FieldProperties(jt) == FirstRule(TypeRules(), jt)
  {
    var r := TypeRules();
    assert r[1..][1..][1..][1..][1..][1..][1..][1..][1..] == [];
  }

  // ---------------------------------------------------------------------
  // Mapping of a document class

  /** A Text annotation: its analyzer and its search analyzer, `None`
      standing for the index analyzer. */
  datatype TextAnno = TextAnno(analyzer: string, searchAnalyzer: Option<string>)

  /** A Keyword annotation: its normalizer (empty for none) and whether
      the field is indexed. */
  datatype KeywordAnno = KeywordAnno(normalizer: string, indexed: bool)

  /** A field of a document class. */
  datatype FieldDecl = FieldDecl(name: string, isTransient: bool, kind: FieldKind)

  datatype FieldKind =
    /** A `Map` field. */
    | MapField
    /** A field whose type is itself a Doc-annotated class. */
    | DocField(nested: bool, indexed: bool, fields: seq<FieldDecl>)
    /** Any other field, with its Text/Keyword annotations: the main
        ones and those declared under an alias name. */
    | ValueField(javaType: JavaType, text: Option<TextAnno>, keyword: Option<KeywordAnno>,
                 textAliases: map<string, TextAnno>, keywordAliases: map<string, KeywordAnno>)

  const IdField := "_id"

  predicate Skipped(f: FieldDecl) {
    f.isTransient || f.name == IdField
  }

  predicate Annotated(k: FieldKind) {
    k.ValueField? && (k.text.Some? || k.keyword.Some? || k.textAliases != map[] || k.keywordAliases != map[])
  }

  function TextProps(a: TextAnno): map<string, Json> {
    map["type" := JStr("text"), "analyzer" := JStr(a.analyzer)]
      + (if a.searchAnalyzer.Some? then map["search_analyzer" := JStr(a.searchAnalyzer.value)] else map[])
  }

  /** The keyword properties; a main keyword field that is not indexed also
      drops its doc values, an alias keeps them. */
  function KeywordProps(a: KeywordAnno, isMain: bool): map<string, Json> {
    map["type" := JStr("keyword")]
      + (if a.normalizer != "" then map["normalizer" := JStr(a.normalizer)] else map[])
      + (if a.indexed then map[] else if isMain then map["index" := JBool(false), "doc_values" := JBool(false)]
         else map["index" := JBool(false)])
  }

  /** The extra fields: text aliases, then keyword aliases, a keyword alias
      replacing a text alias of the same name. */
  function AliasFields(ta: map<string, TextAnno>, ka: map<string, KeywordAnno>): map<string, Json> {
    (map n | n in ta :: JObj(TextProps(ta[n]))) + (map n | n in ka :: JObj(KeywordProps(ka[n], false)))
  }

  function ValueProperty(name: string, k: FieldKind): Result<Json, MappingError>
    requires k.ValueField?
  {
    if !Annotated(k) then Success(FieldProperties(k.javaType))
    else if !k.javaType.isString then Failure(NotAStringField(name))
    else if k.text.Some? && k.keyword.Some? then Failure(TextAndKeyword(name))
    else
      var main := if k.text.Some? then TextProps(k.text.value)
                  else if k.keyword.Some? then KeywordProps(k.keyword.value, true)
                  else map[];
      var extra := AliasFields(k.textAliases, k.keywordAliases);
      Success(JObj(main + (if extra == map[] then map[] else map["fields" := JObj(extra)])))
  }

  const DynamicObject: Json := JObj(map["type" := JStr("object"), "dynamic" := JStr("true")])

  /** The property of one field. */
  function PropertyOf(f: FieldDecl): Result<Json, MappingError>
    decreases f, 1
  {
    match f.kind
    case MapField => Success(DynamicObject)
    case DocField(nested, indexed, sub) =>
      (match Properties(sub)
       case Failure(e) => Failure(e)
       case Success(props) =>
         Success(JObj((if nested then map["type" := JStr("nested")] else map[])
                      + (if indexed then map[] else map["enabled" := JBool(false)])
                      + map["properties" := JObj(props)])))
    case ValueField(_, _, _, _, _) => ValueProperty(f.name, f.kind)
  }

  /** The properties of a class's fields in declaration order; the first
      failing field decides the error. */
  function Properties(fields: seq<FieldDecl>): Result<map<string, Json>, MappingError>
    decreases fields, 0
  {
    if fields == [] then Success(map[])
    else
      var n := |fields| - 1;
      var f := fields[n];
      match Properties(fields[..n])
      case Failure(e) => Failure(e)
      case Success(props) =>
        if Skipped(f) then Success(props)
        else
          match PropertyOf(f)
          case Failure(e) => Failure(e)
          case Success(p) => Success(props[f.name := p])
  }

  /** `toProperties`: a single "properties" entry. */
  function ToProperties(fields: seq<FieldDecl>): Result<Json, MappingError> {
    match Properties(fields)
    case Failure(e) => Failure(e)
    case Success(props) => Success(JObj(map["properties" := JObj(props)]))
  }

  function Names(fields: seq<FieldDecl>): set<string> {
    set f | f in fields && !Skipped(f) :: f.name
  }

  /** The derived properties name exactly the fields that are neither
      transient nor the id. */
  lemma {:induction false} PropertiesNameKeptFields(fields: seq<FieldDecl>)
    ensures Properties(fields).Success? ==> Properties(fields).value.Keys == Names(fields)
    decreases |fields|
  {
    if fields != [] {
      var n := |fields| - 1;
      PropertiesNameKeptFields(fields[..n]);
      assert fields == fields[..n] + [fields[n]];
      assert Names(fields) == Names(fields[..n]) + (if Skipped(fields[n]) then {} else {fields[n].name});
    }
  }

  /** A String field with both a main Text and a main Keyword annotation,
      or an annotated field that is not a String, makes the derivation
      fail. */
  lemma {:induction false} BadAnnotationFails(fields: seq<FieldDecl>, i: nat)
    requires i < |fields| && !Skipped(fields[i]) && Annotated(fields[i].kind)
    requires !fields[i].kind.javaType.isString
             || (fields[i].kind.text.Some? && fields[i].kind.keyword.Some?)
    ensures Properties(fields).Failure?
    decreases |fields|
  {
    var n := |fields| - 1;
    if i < n {
      assert fields[..n][i] == fields[i];
      BadAnnotationFails(fields[..n], i);
    }
  }

  /** A `Map` field is mapped to an object with dynamic mapping. */
  lemma {:induction false} MapFieldIsDynamic(fields: seq<FieldDecl>, i: nat)
    requires i < |fields| && !Skipped(fields[i]) && fields[i].kind.MapField?
    requires forall j :: 0 <= j < |fields| && j != i ==> fields[j].name != fields[i].name
    requires Properties(fields).Success?
    ensures fields[i].name in Properties(fields).value
    ensures Properties(fields).value[fields[i].name] == DynamicObject
    decreases |fields|
  {
    var n := |fields| - 1;
    if i < n {
      assert fields[..n][i] == fields[i];
      MapFieldIsDynamic(fields[..n], i);
    }
  }
}
