/** The two broker-list parsers: splitCSV of the ingester and BrokersFromCSV of the producer. */
module Csv {
  import opened Sequences
  import Sizes

  const DEFAULT_BROKER := "localhost:9092"

  /** The white space splitCSV drops wherever it stands. */
  predicate IsBlank(c: char) {
    c == ' ' || c == '\t' || c == '\n' || c == '\r'
  }

  function Strip(s: string): string {
    if s == "" then ""
    else Strip(s[..|s| - 1]) + (if IsBlank(s[|s| - 1]) then "" else [s[|s| - 1]])
  }

  /** strings.Split(s, ","): always at least one field. */
  function Fields(s: string): (fields: seq<string>)
    ensures |fields| > 0
  {
    if s == "" then [""]
    else
      var before, c := Fields(s[..|s| - 1]), s[|s| - 1];
      if c == ',' then before + [""]
      else before[..|before| - 1] + [before[|before| - 1] + [c]]
  }

  function StripField(field: string): seq<string> {
    var t := Strip(field);
    if t == "" then [] else [t]
  }

  function TrimField(field: string): seq<string> {
    var t := Sizes.TrimSpace(field);
    if t == "" then [] else [t]
  }

  /** The items of splitCSV before its default. */
  function StrippedItems(s: string): seq<string> {
    FlatMap(StripField, Fields(s))
  }

  function SplitResult(s: string): seq<string> {
    if StrippedItems(s) == [] then [DEFAULT_BROKER] else StrippedItems(s)
  }

  function BrokersResult(s: string): seq<string> {
    FlatMap(TrimField, Fields(s))
  }

  method SplitCSV(s: string) returns (items: seq<string>)
    ensures items == SplitResult(s)
  {
    items := [];
    var cur := "";
    for i := 0 to |s|
      invariant Split(items, cur, s[..i])
    {
      PrefixSnoc(s, i);
      items, cur := SplitChar(items, cur, s[..i], s[i]);
    }
    PrefixWhole(s);
    LastField(Fields(s));
    if cur != "" {
      items := items + [cur];
    }
    if |items| == 0 {
      items := items + [DEFAULT_BROKER];
    }
  }

  /** The state of the byte loop after the bytes of s: the finished items, and the stripped field under way. */
  ghost predicate Split(items: seq<string>, cur: string, s: string) {
    var fields := Fields(s);
    items == FlatMap(StripField, fields[..|fields| - 1]) && cur == Strip(fields[|fields| - 1])
  }

  /** The body of the byte loop. */
  method SplitChar(items: seq<string>, cur: string, ghost s: string, c: char)
      returns (items': seq<string>, cur': string)
    requires Split(items, cur, s)
    ensures Split(items', cur', s + [c])
  {
    hide FlatMap, Fields, Strip;
    ghost var fields := Fields(s);
    FieldsSnoc(s, c);
    LastField(fields);
    StripSnoc(fields[|fields| - 1], c);
    StripNothing();
    SnocPrefix(fields, "");
    SnocPrefix(fields[..|fields| - 1], fields[|fields| - 1] + [c]);
    items', cur' := items, cur;
    if c == ',' {
      if cur != "" {
        items' := items + [cur];
        cur' := "";
      }
      return;
    }
    if c == ' ' || c == '\t' || c == '\n' || c == '\r' {
      return;
    }
    cur' := cur + [c];
  }

  lemma StripNothing()
    ensures Strip("") == ""
  {
  }

  method BrokersFromCSV(s: string) returns (items: seq<string>)
    ensures items == BrokersResult(s)
  {
    var parts := Fields(s);
    items := [];
    for i := 0 to |parts|
      invariant items == FlatMap(TrimField, parts[..i])
    {
      PrefixSnoc(parts, i);
      FlatMapConcat(TrimField, parts[..i], [parts[i]]);
      FlatMapOne(TrimField, parts[i]);
      var p := Sizes.TrimSpace(parts[i]);
      if p != "" {
        items := items + [p];
      }
    }
    PrefixWhole(parts);
  }

  lemma FieldsSnoc(s: string, c: char)
    ensures var before := Fields(s);
      Fields(s + [c]) == if c == ',' then before + [""] else Extended(before, [c])
  {
    SnocPrefix(s, c);
  }

  lemma StripSnoc(s: string, c: char)
    ensures Strip(s + [c]) == Strip(s) + (if IsBlank(c) then "" else [c])
  {
    SnocPrefix(s, c);
  }

  lemma LastField(fields: seq<string>)
    requires fields != []
    ensures FlatMap(StripField, fields)
      == FlatMap(StripField, fields[..|fields| - 1]) + StripField(fields[|fields| - 1])
  {
  }

  // ---------------------------------------------------------------------------------------------------------------
  // Splitting undoes joining
  // ---------------------------------------------------------------------------------------------------------------

  function Join(items: seq<string>): string
    requires items != []
  {
    if |items| == 1 then items[0] else Join(items[..|items| - 1]) + "," + items[|items| - 1]
  }

  predicate CommaFree(s: string) {
    forall i :: 0 <= i < |s| ==> s[i] != ','
  }

  predicate BlankFree(s: string) {
    forall i :: 0 <= i < |s| ==> !IsBlank(s[i])
  }

  /** fields with text appended to the last of them. */
  function Extended(fields: seq<string>, t: string): seq<string>
    requires fields != []
  {
    fields[..|fields| - 1] + [fields[|fields| - 1] + t]
  }

  lemma ExtendedMore(fields: seq<string>, t: string, c: char)
    requires fields != []
    ensures Extended(Extended(fields, t), [c]) == Extended(fields, t + [c])
  {
    var before, last := fields[..|fields| - 1], fields[|fields| - 1];
    SnocPrefix(before, last + t);
    assert last + t + [c] == last + (t + [c]);
  }

  lemma ExtendedByNothing(fields: seq<string>)
    requires fields != []
    ensures Extended(fields, "") == fields
  {
    assert fields[|fields| - 1] + "" == fields[|fields| - 1];
    PrefixSnoc(fields, |fields| - 1);
    PrefixWhole(fields);
  }

  /** Appending text without a comma extends the last field. */
  lemma {:induction false} FieldsExtend(s: string, t: string)
    requires CommaFree(t)
    ensures Fields(s + t) == Extended(Fields(s), t)
    decreases |t|
  {
    hide Fields, Extended;
    if t == "" {
      assert s + t == s;
      ExtendedByNothing(Fields(s));
    } else {
      var u, c := t[..|t| - 1], t[|t| - 1];
      FieldsExtend(s, u);
      assert s + t == (s + u) + [c] && t == u + [c];
      FieldsSnoc(s + u, c);
      ExtendedMore(Fields(s), u, c);
    }
  }

  lemma OneEmptyField()
    ensures Fields("") == [""]
  {
  }

  lemma ExtendedEmpty(t: seq<string>, last: string)
    ensures Extended(t + [""], last) == t + [last]
  {
    SnocPrefix(t, "");
    assert "" + last == last;
  }

  lemma {:induction false} FieldsOfJoin(items: seq<string>)
    requires items != [] && forall i :: 0 <= i < |items| ==> CommaFree(items[i])
    ensures Fields(Join(items)) == items
  {
    hide Fields, Extended, CommaFree;
    var t, last := items[..|items| - 1], items[|items| - 1];
    PrefixSnoc(items, |items| - 1);
    PrefixWhole(items);
    if |items| == 1 {
      OneEmptyField();
      FieldsExtend("", last);
      assert "" + last == last;
      ExtendedEmpty([], last);
      assert [] + [""] == [""] && [] + [last] == [last];
    } else {
      assert forall i :: 0 <= i < |t| ==> t[i] == items[i];
      FieldsOfJoin(t);
      FieldsSnoc(Join(t), ',');
      FieldsExtend(Join(t) + ",", last);
      ExtendedEmpty(t, last);
    }
  }

  lemma {:induction false} StripBlankFree(s: string)
    requires BlankFree(s)
    ensures Strip(s) == s
  {
    if s != "" {
      StripBlankFree(s[..|s| - 1]);
    }
  }

  lemma {:induction false} AllKept(items: seq<string>)
    requires forall i :: 0 <= i < |items| ==> items[i] != "" && BlankFree(items[i])
    ensures FlatMap(StripField, items) == items
  {
    hide Strip, BlankFree;
    if items != [] {
      var t, last := items[..|items| - 1], items[|items| - 1];
      assert forall i :: 0 <= i < |t| ==> t[i] == items[i];
      AllKept(t);
      StripBlankFree(last);
      PrefixSnoc(items, |items| - 1);
      PrefixWhole(items);
    }
  }

  /** Neither a comma nor a space, tab, line feed or carriage return. */
  predicate Plain(s: string) {
    forall i :: 0 <= i < |s| ==> s[i] !in {',', ' ', '\t', '\n', '\r'}
  }

  lemma PlainIsFree(s: string)
    ensures Plain(s) <==> CommaFree(s) && BlankFree(s)
  {
  }

  /** splitCSV gives back any non-empty list of plain items that was joined with commas. */
  lemma SplitJoin(items: seq<string>)
    requires items != []
    requires forall i :: 0 <= i < |items| ==> items[i] != "" && Plain(items[i])
    ensures SplitResult(Join(items)) == items
  {
    forall i | 0 <= i < |items|
      ensures CommaFree(items[i]) && BlankFree(items[i])
    {
      PlainIsFree(items[i]);
    }
    FieldsOfJoin(items);
    AllKept(items);
  }

  // ---------------------------------------------------------------------------------------------------------------
  // What splitCSV may return
  // ---------------------------------------------------------------------------------------------------------------

  lemma {:induction false} FieldsCommaFree(s: string)
    ensures forall f :: f in Fields(s) ==> CommaFree(f)
  {
    if s != "" {
      var before := Fields(s[..|s| - 1]);
      FieldsCommaFree(s[..|s| - 1]);
      assert before[|before| - 1] in before;
      assert forall f :: f in before[..|before| - 1] ==> f in before;
    }
  }

  lemma {:induction false} StripChars(s: string)
    ensures BlankFree(Strip(s)) && (CommaFree(s) ==> CommaFree(Strip(s)))
  {
    if s != "" {
      StripChars(s[..|s| - 1]);
    }
  }

  lemma PlainDefault()
    ensures CommaFree(DEFAULT_BROKER) && BlankFree(DEFAULT_BROKER)
  {
  }

  /** The result is never empty, and no item is empty or holds a comma or a blank. */
  lemma SplitItemsArePlain(s: string, item: string)
    requires item in SplitResult(s)
    ensures SplitResult(s) != [] && item != "" && Plain(item)
  {
    hide Fields, Strip, CommaFree, BlankFree, Plain;
    PlainIsFree(item);
    if StrippedItems(s) != [] {
      var i := FlatMapMember(StripField, Fields(s), item);
      FieldsCommaFree(s);
      StripChars(Fields(s)[i]);
    } else {
      PlainDefault();
    }
  }

  lemma {:induction false} StripAllBlank(s: string)
    ensures Strip(s) == "" <==> forall i :: 0 <= i < |s| ==> IsBlank(s[i])
  {
    if s != "" {
      var t, c := s[..|s| - 1], s[|s| - 1];
      StripAllBlank(t);
      assert Strip(s) == "" <==> Strip(t) == "" && IsBlank(c);
      hide Strip;
      assert forall i :: 0 <= i < |t| ==> t[i] == s[i];
    }
  }

  lemma {:induction false} NoItems(s: string)
    requires forall i :: 0 <= i < |s| ==> s[i] in {',', ' ', '\t', '\n', '\r'}
    ensures forall f :: f in Fields(s) ==> Strip(f) == ""
  {
    if s != "" {
      var before, c := Fields(s[..|s| - 1]), s[|s| - 1];
      NoItems(s[..|s| - 1]);
      assert before[|before| - 1] in before;
      StripSnoc(before[|before| - 1], c);
      assert forall f :: f in before[..|before| - 1] ==> f in before;
    }
  }

  lemma {:induction false} NothingKept(fs: seq<string>)
    requires forall f :: f in fs ==> Strip(f) == ""
    ensures FlatMap(StripField, fs) == []
  {
    if fs != [] {
      NothingKept(fs[..|fs| - 1]);
    }
  }

  /** Text of commas and blanks alone stands for the default broker. */
  lemma SplitOfNothing(s: string)
    requires forall i :: 0 <= i < |s| ==> s[i] in {',', ' ', '\t', '\n', '\r'}
    ensures SplitResult(s) == ["localhost:9092"]
  {
    NoItems(s);
    NothingKept(Fields(s));
  }

  // ---------------------------------------------------------------------------------------------------------------
  // When the two parsers agree
  // ---------------------------------------------------------------------------------------------------------------

  lemma {:induction false} StripConcat(a: string, b: string)
    ensures Strip(a + b) == Strip(a) + Strip(b)
  {
    if b == "" {
      assert a + b == a;
    } else {
      var u, c := b[..|b| - 1], b[|b| - 1];
      assert a + b == (a + u) + [c];
      StripConcat(a, u);
      StripSnoc(a + u, c);
    }
  }

  /** White space from j back to a comma or the start of the text. */
  predicate SpaceBack(s: string, j: nat)
    requires j < |s|
  {
    Sizes.IsSpace(s[j]) && (j == 0 || s[j - 1] == ',' || SpaceBack(s, j - 1))
  }

  /** White space from j on to a comma or the end of the text. */
  predicate SpaceAhead(s: string, j: nat)
    requires j < |s|
    decreases |s| - j
  {
    Sizes.IsSpace(s[j]) && (j + 1 == |s| || s[j + 1] == ',' || SpaceAhead(s, j + 1))
  }

  predicate AtEdge(s: string, j: nat)
    requires j < |s|
  {
    SpaceBack(s, j) || SpaceAhead(s, j)
  }

  /** At the edges of items stand only space, tab, LF and CR, and these stand nowhere else. */
  predicate BlanksAtEdges(s: string) {
    forall j :: 0 <= j < |s| && Sizes.IsSpace(s[j]) ==> (IsBlank(s[j]) <==> AtEdge(s, j))
  }

  /** Some character is neither a comma nor white space. */
  predicate HasItem(s: string) {
    exists j :: 0 <= j < |s| && s[j] != ',' && !Sizes.IsSpace(s[j])
  }

  // A text is its fields joined by commas.

  lemma JoinSnoc(fs: seq<string>, f: string)
    requires fs != []
    ensures Join(fs + [f]) == Join(fs) + "," + f
  {
    SnocPrefix(fs, f);
  }

  lemma JoinExtended(fs: seq<string>, t: string)
    requires fs != []
    ensures Join(Extended(fs, t)) == Join(fs) + t
  {
    var front, last := fs[..|fs| - 1], fs[|fs| - 1];
    SnocPrefix(front, last + t);
    if front != [] {
      assert Join(front) + "," + (last + t) == Join(front) + "," + last + t;
    }
  }

  lemma {:induction false} JoinOfFields(s: string)
    ensures Join(Fields(s)) == s
  {
    hide Fields, Join, Extended;
    if s == "" {
      OneEmptyField();
      JoinOfOne("");
    } else {
      var u, c := s[..|s| - 1], s[|s| - 1];
      JoinOfFields(u);
      assert s == u + [c];
      FieldsSnoc(u, c);
      JoinSnoc(Fields(u), "");
      JoinExtended(Fields(u), [c]);
    }
  }

  lemma JoinOfOne(f: string)
    ensures Join([f]) == f
  {
  }

  lemma EdgesBefore(a: string, b: string, j: nat)
    requires j < |a|
    ensures var s := a + "," + b; SpaceBack(s, j) == SpaceBack(a, j) && SpaceAhead(s, j) == SpaceAhead(a, j)
  {
    BackBefore(a, b, j);
    AheadBefore(a, b, j);
  }

  lemma {:induction false} BackBefore(a: string, b: string, j: nat)
    requires j < |a|
    ensures SpaceBack(a + "," + b, j) == SpaceBack(a, j)
  {
    var s := a + "," + b;
    assert s[j] == a[j];
    if j > 0 {
      assert s[j - 1] == a[j - 1];
      BackBefore(a, b, j - 1);
    }
  }

  lemma {:induction false} AheadBefore(a: string, b: string, j: nat)
    requires j < |a|
    ensures SpaceAhead(a + "," + b, j) == SpaceAhead(a, j)
    decreases |a| - j
  {
    var s := a + "," + b;
    assert s[j] == a[j];
    if j + 1 < |a| {
      assert s[j + 1] == a[j + 1];
      AheadBefore(a, b, j + 1);
    } else {
      assert s[j + 1] == ',';
    }
  }

  lemma {:induction false} BackAfter(a: string, b: string, j: nat)
    requires j < |b|
    ensures SpaceBack(a + "," + b, |a| + 1 + j) == SpaceBack(b, j)
  {
    var s, k := a + "," + b, |a| + 1 + j;
    assert s[k] == b[j];
    if j > 0 {
      assert s[k - 1] == b[j - 1];
      BackAfter(a, b, j - 1);
    } else {
      assert s[k - 1] == ',';
    }
  }

  lemma {:induction false} AheadAfter(a: string, b: string, j: nat)
    requires j < |b|
    ensures SpaceAhead(a + "," + b, |a| + 1 + j) == SpaceAhead(b, j)
    decreases |b| - j
  {
    var s, k := a + "," + b, |a| + 1 + j;
    assert s[k] == b[j];
    if j + 1 < |b| {
      assert s[k + 1] == b[j + 1];
      AheadAfter(a, b, j + 1);
    }
  }

  /** Conditions on the text are conditions on the fields. */
  lemma TextAtComma(a: string, b: string)
    ensures HasItem(a + "," + b) <==> HasItem(a) || HasItem(b)
    ensures BlanksAtEdges(a + "," + b) <==> BlanksAtEdges(a) && BlanksAtEdges(b)
  {
    hide SpaceBack, SpaceAhead;
    var s := a + "," + b;
    forall j | 0 <= j < |a|
      ensures s[j] == a[j] && AtEdge(s, j) == AtEdge(a, j)
    {
      EdgesBefore(a, b, j);
    }
    forall j | 0 <= j < |b|
      ensures s[|a| + 1 + j] == b[j] && AtEdge(s, |a| + 1 + j) == AtEdge(b, j)
    {
      BackAfter(a, b, j);
      AheadAfter(a, b, j);
    }
    AtComma(s, a, b);
  }

  lemma AtComma(s: string, a: string, b: string)
    requires |s| == |a| + 1 + |b| && s[|a|] == ','
    requires forall j :: 0 <= j < |a| ==> s[j] == a[j] && AtEdge(s, j) == AtEdge(a, j)
    requires forall j :: 0 <= j < |b| ==> s[|a| + 1 + j] == b[j] && AtEdge(s, |a| + 1 + j) == AtEdge(b, j)
    ensures HasItem(s) <==> HasItem(a) || HasItem(b)
    ensures BlanksAtEdges(s) <==> BlanksAtEdges(a) && BlanksAtEdges(b)
  {
    hide AtEdge, IsBlank;
    assert forall k :: |a| < k < |s| ==> s[k] == b[k - |a| - 1] && AtEdge(s, k) == AtEdge(b, k - |a| - 1) by {
      forall k | |a| < k < |s|
        ensures s[k] == b[k - |a| - 1] && AtEdge(s, k) == AtEdge(b, k - |a| - 1)
      {
        var j := k - |a| - 1;
        assert k == |a| + 1 + j;
      }
    }
    if HasItem(b) {
      var j :| 0 <= j < |b| && b[j] != ',' && !Sizes.IsSpace(b[j]);
      assert s[|a| + 1 + j] == b[j];
    }
    if BlanksAtEdges(s) {
      forall j | 0 <= j < |b| && Sizes.IsSpace(b[j])
        ensures IsBlank(b[j]) <==> AtEdge(b, j)
      {
        assert s[|a| + 1 + j] == b[j];
      }
    }
  }

  lemma {:induction false} TextOfFields(fs: seq<string>)
    requires fs != []
    ensures HasItem(Join(fs)) <==> exists i :: 0 <= i < |fs| && HasItem(fs[i])
    ensures BlanksAtEdges(Join(fs)) <==> forall i :: 0 <= i < |fs| ==> BlanksAtEdges(fs[i])
  {
    if |fs| > 1 {
      hide HasItem, BlanksAtEdges;
      var t, last := fs[..|fs| - 1], fs[|fs| - 1];
      TextOfFields(t);
      TextAtComma(Join(t), last);
      assert forall i :: 0 <= i < |t| ==> t[i] == fs[i];
    }
  }

  // One field.

  lemma {:induction false} BackInField(f: string, j: nat)
    requires CommaFree(f) && j < |f|
    ensures SpaceBack(f, j) <==> Sizes.Blank(f[..j + 1])
  {
    if j > 0 {
      BackInField(f, j - 1);
      assert f[..j + 1] == f[..j] + [f[j]];
    }
  }

  lemma {:induction false} AheadInField(f: string, j: nat)
    requires CommaFree(f) && j < |f|
    ensures SpaceAhead(f, j) <==> Sizes.Blank(f[j..])
    decreases |f| - j
  {
    if j + 1 < |f| {
      AheadInField(f, j + 1);
      assert f[j..] == [f[j]] + f[j + 1..];
    }
  }

  /** Of a field, the white space around the core is at the edge and that within it is not. */
  lemma EdgesOfField(left: string, core: string, right: string, j: nat)
    requires Sizes.Blank(left) && Sizes.Blank(right) && (core == "" || Sizes.Tight(core))
    requires CommaFree(left + core + right) && j < |left + core + right|
    ensures var f := left + core + right;
      Sizes.IsSpace(f[j]) ==> (AtEdge(f, j) <==> j < |left| || j >= |left| + |core|)
  {
    var f := left + core + right;
    BackInField(f, j);
    AheadInField(f, j);
    if j < |left| {
      assert f[..j + 1] == left[..j + 1];
    } else if j >= |left| + |core| {
      assert f[j..] == right[j - |left| - |core|..];
    } else {
      assert f[..j + 1][|left|] == core[0];
      assert f[j..][|left| + |core| - 1 - j] == core[|core| - 1];
    }
  }

  lemma StripThree(left: string, core: string, right: string)
    ensures Strip(left + core + right) == Strip(left) + Strip(core) + Strip(right)
  {
    StripConcat(left + core, right);
    StripConcat(left, core);
  }

  lemma FieldParts(f: string, left: string, core: string, right: string)
    requires f == left + core + right && CommaFree(f)
    requires Sizes.Blank(left) && Sizes.Blank(right) && (core == "" || Sizes.Tight(core))
    ensures BlanksAtEdges(f) <==> Strip(left) == "" && Strip(right) == "" && BlankFree(core)
    ensures HasItem(f) <==> core != ""
  {
    hide Strip, AtEdge;
    StripAllBlank(left);
    StripAllBlank(right);
    forall j | 0 <= j < |f|
      ensures f[j] == if j < |left| then left[j] else if j < |left| + |core| then core[j - |left|]
                      else right[j - |left| - |core|]
      ensures Sizes.IsSpace(f[j]) ==> (AtEdge(f, j) <==> j < |left| || j >= |left| + |core|)
    {
      EdgesOfField(left, core, right, j);
    }
    ByParts(f, left, core, right);
    if core != "" {
      assert f[|left|] == core[0];
    }
  }

  lemma ByParts(f: string, left: string, core: string, right: string)
    requires |f| == |left| + |core| + |right| && Sizes.Blank(left) && Sizes.Blank(right)
    requires forall j :: 0 <= j < |f| ==>
               && f[j] == (if j < |left| then left[j] else if j < |left| + |core| then core[j - |left|]
                           else right[j - |left| - |core|])
               && (Sizes.IsSpace(f[j]) ==> (AtEdge(f, j) <==> j < |left| || j >= |left| + |core|))
    ensures BlanksAtEdges(f) <==>
            (forall i :: 0 <= i < |left| ==> IsBlank(left[i])) && (forall i :: 0 <= i < |right| ==> IsBlank(right[i]))
            && BlankFree(core)
  {
    hide AtEdge;
    if BlanksAtEdges(f) {
      forall i | 0 <= i < |left|
        ensures IsBlank(left[i])
      {
        assert f[i] == left[i];
      }
      forall i | 0 <= i < |right|
        ensures IsBlank(right[i])
      {
        assert f[|left| + |core| + i] == right[i];
      }
      forall i | 0 <= i < |core|
        ensures !IsBlank(core[i])
      {
        assert f[|left| + i] == core[i];
      }
    }
  }

  /** Stripping shortens exactly the strings that hold a blank. */
  lemma {:induction false} StripLength(s: string)
    ensures |Strip(s)| <= |s| && (|Strip(s)| == |s| <==> BlankFree(s))
  {
    if s != "" {
      StripLength(s[..|s| - 1]);
    }
  }

  /** A field gives both parsers the same if its blanks are at its edges. */
  lemma FieldAgrees(f: string)
    requires CommaFree(f)
    ensures BlanksAtEdges(f) ==> StripField(f) == TrimField(f)
    ensures TrimField(f) != [] <==> HasItem(f)
    ensures BlankFree(Sizes.TrimSpace(f)) ==>
            |Strip(f)| >= |Sizes.TrimSpace(f)| && (|Strip(f)| == |Sizes.TrimSpace(f)| ==> BlanksAtEdges(f))
  {
    hide Strip, BlanksAtEdges, HasItem, BlankFree, CommaFree;
    var core := Sizes.TrimSpace(f);
    var left, right := Sizes.TrimSpaceSplits(f);
    FieldParts(f, left, core, right);
    StripThree(left, core, right);
    if BlankFree(core) {
      StripBlankFree(core);
      assert Strip(f) == Strip(left) + core + Strip(right);
      assert "" + core + "" == core;
    }
  }

  // All fields.

  function TotalLength(items: seq<string>): nat {
    if items == [] then 0 else TotalLength(items[..|items| - 1]) + |items[|items| - 1]|
  }

  lemma TotalLengthMore(items: seq<string>, more: seq<string>)
    requires |more| <= 1
    ensures TotalLength(items + more) == TotalLength(items) + if more == [] then 0 else |more[0]|
  {
    if more == [] {
      assert items + more == items;
    } else {
      assert items + more == items + [more[0]];
      SnocPrefix(items, more[0]);
    }
  }

  function StrippedLength(fs: seq<string>): nat {
    if fs == [] then 0 else StrippedLength(fs[..|fs| - 1]) + |Strip(fs[|fs| - 1])|
  }

  function TrimmedLength(fs: seq<string>): nat {
    if fs == [] then 0 else TrimmedLength(fs[..|fs| - 1]) + |Sizes.TrimSpace(fs[|fs| - 1])|
  }

  lemma {:induction false} LengthsOfItems(fs: seq<string>)
    ensures TotalLength(FlatMap(StripField, fs)) == StrippedLength(fs)
    ensures TotalLength(FlatMap(TrimField, fs)) == TrimmedLength(fs)
  {
    hide Strip;
    if fs != [] {
      var t, last := fs[..|fs| - 1], fs[|fs| - 1];
      LengthsOfItems(t);
      TotalLengthMore(FlatMap(StripField, t), StripField(last));
      TotalLengthMore(FlatMap(TrimField, t), TrimField(last));
    }
  }

  lemma {:induction false} FieldsAgree(fs: seq<string>)
    requires forall f :: f in fs ==> CommaFree(f) && BlanksAtEdges(f)
    ensures FlatMap(StripField, fs) == FlatMap(TrimField, fs)
  {
    if fs != [] {
      FieldsAgree(fs[..|fs| - 1]);
      FieldAgrees(fs[|fs| - 1]);
    }
  }

  /** If no trimmed item holds a blank, stripping keeps no less, and no more only if all blanks are at edges. */
  lemma {:induction false} StrippedIsLonger(fs: seq<string>)
    requires forall f :: f in fs ==> CommaFree(f) && BlankFree(Sizes.TrimSpace(f))
    ensures StrippedLength(fs) >= TrimmedLength(fs)
    ensures StrippedLength(fs) == TrimmedLength(fs) ==> forall f :: f in fs ==> BlanksAtEdges(f)
  {
    hide Strip, BlanksAtEdges, HasItem, BlankFree, CommaFree;
    if fs != [] {
      var t, last := fs[..|fs| - 1], fs[|fs| - 1];
      assert fs == t + [last];
      StrippedIsLonger(t);
      FieldAgrees(last);
    }
  }

  lemma TrimmedIsItem(fs: seq<string>, f: string)
    requires f in fs && Sizes.TrimSpace(f) != ""
    ensures Sizes.TrimSpace(f) in FlatMap(TrimField, fs)
  {
    var i :| 0 <= i < |fs| && fs[i] == f;
    assert TrimField(f)[0] == Sizes.TrimSpace(f);
    FlatMapHas(TrimField, fs, i, Sizes.TrimSpace(f));
  }

  /** Equal results leave no blank within an item, since stripping removes all of them. */
  lemma EqualIsBlankFree(fs: seq<string>, f: string)
    requires FlatMap(StripField, fs) == FlatMap(TrimField, fs) && f in fs
    ensures BlankFree(Sizes.TrimSpace(f))
  {
    hide Strip;
    var core := Sizes.TrimSpace(f);
    if core != "" {
      TrimmedIsItem(fs, f);
      var i := FlatMapMember(StripField, fs, core);
      StripChars(fs[i]);
    }
  }

  /** The parsers agree, defaults apart, exactly if the blanks are at the edges of every field. */
  lemma FieldsAgreement(fs: seq<string>)
    requires forall f :: f in fs ==> CommaFree(f)
    ensures FlatMap(StripField, fs) == FlatMap(TrimField, fs) <==> forall f :: f in fs ==> BlanksAtEdges(f)
  {
    hide Strip, BlanksAtEdges, BlankFree, CommaFree, FlatMap, TotalLength;
    LengthsOfItems(fs);
    if FlatMap(StripField, fs) == FlatMap(TrimField, fs) {
      forall f | f in fs
        ensures BlankFree(Sizes.TrimSpace(f))
      {
        EqualIsBlankFree(fs, f);
      }
      StrippedIsLonger(fs);
    } else if forall f :: f in fs ==> BlanksAtEdges(f) {
      FieldsAgree(fs);
    }
  }

  lemma {:induction false} FoundItems(fs: seq<string>)
    requires forall f :: f in fs ==> CommaFree(f)
    ensures FlatMap(TrimField, fs) != [] <==> exists i :: 0 <= i < |fs| && HasItem(fs[i])
  {
    hide HasItem, CommaFree, TrimField;
    if fs != [] {
      var t, last := fs[..|fs| - 1], fs[|fs| - 1];
      FoundItems(t);
      FieldAgrees(last);
      assert forall i :: 0 <= i < |t| ==> t[i] == fs[i];
    }
  }

  /** Without items splitCSV falls back to the default, which BrokersFromCSV never does. */
  lemma DefaultDiffers(s: string)
    requires SplitResult(s) == BrokersResult(s)
    ensures StrippedItems(s) == BrokersResult(s) && BrokersResult(s) != []
  {
    hide Strip, Fields;
    if StrippedItems(s) == [] {
      assert DEFAULT_BROKER in BrokersResult(s);
      var i := FlatMapMember(TrimField, Fields(s), DEFAULT_BROKER);
      var f := Fields(s)[i];
      var left, right := Sizes.TrimSpaceSplits(f);
      StripThree(left, DEFAULT_BROKER, right);
      PlainDefault();
      StripBlankFree(DEFAULT_BROKER);
      assert StripField(f)[0] == Strip(f);
      FlatMapHas(StripField, Fields(s), i, Strip(f));
      assert false;
    }
  }

  /**
   * For every text: splitCSV and BrokersFromCSV agree exactly when the text has an item, the white space at the edges
   * of its items is space, tab, LF or CR, and there is none of these inside an item.
   */
  lemma ParsersAgree(s: string)
    ensures SplitResult(s) == BrokersResult(s) <==> HasItem(s) && BlanksAtEdges(s)
  {
    var fs := Fields(s);
    hide Fields, HasItem, BlanksAtEdges, CommaFree, Join;
    JoinOfFields(s);
    FieldsCommaFree(s);
    TextOfFields(fs);
    FoundItems(fs);
    FieldsAgreement(fs);
    if SplitResult(s) == BrokersResult(s) {
      DefaultDiffers(s);
    }
  }
}
