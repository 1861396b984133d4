/** Template tags in a frozen collate query: when the caller's own text opens none, the holes are the only ones. */
module CollateTags {
  import opened Json
  import opened Collate

  /** What opens a Mustache tag. */
  const TAG := "{{"

  /** No key and no string of the tree opens a tag. */
  predicate TagFree(j: Json)
    decreases j
  {
    match j
    case Str(s) => !Contains(s, TAG)
    case Arr(items) => forall i :: 0 <= i < |items| ==> TagFree(items[i])
    case Obj(fields) => forall i :: 0 <= i < |fields| ==> !Contains(fields[i].key, TAG) && TagFree(fields[i].value)
    case _ => true
  }

  lemma {:induction false} HoleOpensTag(s: string)
    requires Contains(s, HOLE)
    ensures Contains(s, TAG)
  {
    if HOLE <= s {
      assert HOLE[..2] == TAG && s[..2] == HOLE[..2];
    } else {
      HoleOpensTag(s[1..]);
    }
  }

  /** A tree that opens no tag has no text that looks like the hole. */
  lemma {:induction false} TagFreeIsHoleFree(j: Json)
    requires TagFree(j)
    ensures HoleFree(j)
    decreases j
  {
    match j
    case Str(s) => if Contains(s, HOLE) { HoleOpensTag(s); }
    case Arr(items) => forall i | 0 <= i < |items| ensures HoleFree(items[i]) { TagFreeIsHoleFree(items[i]); }
    case Obj(fields) =>
      forall i | 0 <= i < |fields| ensures !Contains(fields[i].key, HOLE) && HoleFree(fields[i].value) {
        if Contains(fields[i].key, HOLE) { HoleOpensTag(fields[i].key); }
        TagFreeIsHoleFree(fields[i].value);
      }
    case _ =>
  }

  // ----- printed text

  lemma TagLeaf()
    ensures Leaf(Raw(TAG), TAG, TAG)
  {
    assert Plain('{');
  }

  lemma {:induction false} TagFreeIsClean(j: Json)
    requires Valid(j) && TagFree(j)
    ensures Clean(j, Raw(TAG), TAG)
    decreases j
  {
    match j
    case Arr(items) => forall i | 0 <= i < |items| ensures Clean(items[i], Raw(TAG), TAG) { TagFreeIsClean(items[i]); }
    case Obj(fields) =>
      forall i | 0 <= i < |fields| ensures Clean(fields[i].value, Raw(TAG), TAG) { TagFreeIsClean(fields[i].value); }
    case _ =>
  }

  lemma {:induction false} NothingToSubst(j: Json, to: Json)
    requires Valid(j)
    ensures Subst(j, Raw(TAG), to) == j
    decreases j
  {
    match j
    case Arr(items) => NothingInItems(items, to);
    case Obj(fields) => NothingInFields(fields, to);
    case _ =>
  }

  lemma {:induction false} NothingInItems(items: seq<Json>, to: Json)
    requires forall i :: 0 <= i < |items| ==> Valid(items[i])
    ensures SubstItems(items, Raw(TAG), to) == items
    decreases items
  {
    if items != [] {
      NothingToSubst(items[0], to);
      NothingInItems(items[1..], to);
    }
  }

  lemma {:induction false} NothingInFields(fields: seq<Field>, to: Json)
    requires forall i :: 0 <= i < |fields| ==> Valid(fields[i].value)
    ensures SubstFields(fields, Raw(TAG), to) == fields
    decreases fields
  {
    if fields != [] {
      NothingToSubst(fields[0].value, to);
      NothingInFields(fields[1..], to);
    }
  }

  /** Replacing something by something longer shows. */
  lemma {:induction false} ReplacingShows(t: string, pat: string, put: string)
    requires pat != "" && |put| > |pat|
    ensures |ReplaceAll(t, pat, put)| >= |t|
    ensures Contains(t, pat) ==> |ReplaceAll(t, pat, put)| > |t|
    decreases |t|
  {
    if |t| < |pat| {
      TooShort(t, pat);
    } else if t[..|pat|] == pat {
      ReplacingShows(t[|pat|..], pat, put);
    } else {
      ReplacingShows(t[1..], pat, put);
    }
  }

  lemma {:induction false} TooShort(t: string, pat: string)
    requires |t| < |pat|
    ensures !Contains(t, pat)
  {
    if t != "" { TooShort(t[1..], pat); }
  }

  /** Printing opens no tag of its own: braces of nested objects never stand together. */
  lemma PrintOpensNoTag(j: Json)
    requires Valid(j) && TagFree(j)
    ensures !Contains(Print(j), TAG)
  {
    hide Print, Valid, TagFree, Clean, ReplaceAll, Pattern, Subst, Contains;
    TagLeaf();
    TagFreeIsClean(j);
    var to := Str("long");
    ReplaceValue(j, "", Raw(TAG), to, TAG, TAG);
    NothingToSubst(j, to);
    ReplaceNothing(TAG, Print(to));
    assert Print(j) + "" == Print(j);
    assert |Print(to)| > |TAG| by { LongText(); }
    ReplacingShows(Print(j), TAG, Print(to));
  }

  lemma LongText()
    ensures |Print(Str("long"))| > |TAG|
  { }

  // ----- the frozen template

  lemma {:induction false} SubstTagFree(j: Json, from: Json, x: string)
    requires TagFree(j) && !Contains(x, TAG)
    ensures TagFree(Subst(j, from, Str(x)))
    decreases j
  {
    match j
    case Arr(items) => SubstTagFreeItems(items, from, x);
    case Obj(fields) => SubstTagFreeFields(fields, from, x);
    case _ =>
  }

  ghost predicate TagFreeItems(items: seq<Json>) { forall i :: 0 <= i < |items| ==> TagFree(items[i]) }

  ghost predicate TagFreeFields(fields: seq<Field>) {
    forall i :: 0 <= i < |fields| ==> !Contains(fields[i].key, TAG) && TagFree(fields[i].value)
  }

  lemma {:induction false} SubstTagFreeItems(items: seq<Json>, from: Json, x: string)
    requires TagFreeItems(items) && !Contains(x, TAG)
    ensures TagFreeItems(SubstItems(items, from, Str(x)))
    decreases items
  {
    if items != [] {
      SubstTagFree(items[0], from, x);
      SubstTagFreeItems(items[1..], from, x);
    }
  }

  lemma {:induction false} SubstTagFreeFields(fields: seq<Field>, from: Json, x: string)
    requires TagFreeFields(fields) && !Contains(x, TAG)
    ensures TagFreeFields(SubstFields(fields, from, Str(x)))
    decreases fields
  {
    if fields != [] {
      SubstTagFree(fields[0].value, from, x);
      SubstTagFreeFields(fields[1..], from, x);
    }
  }

  /** When the rendered query opens no tag, the holes are the only tags of the frozen template: filling them with text
      that opens none leaves none for a template engine to expand, and gives the query with that text in its places. */
  lemma OnlyHolesAreTags(j: Json, marker: string, x: string)
    requires IsMarker(marker) && Valid(j) && CandidateScalars(j, marker, "") && TagFree(j) && !Contains(x, TAG)
    ensures !Contains(Fill(Freeze(j, marker).value, x), TAG)
    ensures Fill(Freeze(j, marker).value, x) == Print(Subst(j, Str(marker), Str(x)))
  {
    hide Print, Valid, TagFree, HoleFree, CandidateScalars, Subst, Fill, Freeze, Contains;
    TagFreeIsHoleFree(j);
    FillIsSubstitution(j, marker, x);
    SubstTagFree(j, Str(marker), x);
    SubstValid(j, Str(marker), x);
    PrintOpensNoTag(Subst(j, Str(marker), Str(x)));
  }

  // ----- and only then

  lemma {:induction false} ContainsPadded(a: string, s: string, b: string, sub: string)
    requires Contains(s, sub)
    ensures Contains(a + s + b, sub)
  {
    if a != "" {
      ContainsPadded(a[1..], s, b, sub);
      assert (a + s + b)[1..] == a[1..] + s + b;
    } else {
      assert a + s + b == s + b;
      ContainsFollowed(s, b, sub);
    }
  }

  lemma {:induction false} ContainsFollowed(s: string, b: string, sub: string)
    requires Contains(s, sub)
    ensures Contains(s + b, sub)
  {
    if !(sub <= s) {
      ContainsFollowed(s[1..], b, sub);
      assert (s + b)[1..] == s[1..] + b;
    }
  }

  /** Escaping leaves a tag as it is. */
  lemma {:induction false} EscapeKeepsTag(s: string)
    requires Contains(s, TAG)
    ensures Contains(Escape(s), TAG)
  {
    hide Contains, EscapeChar;
    TagStep(s);
    assert EscapeChar('{') == "{" by { BracePrints(); }
    if TAG <= s {
      assert Escape(s) == "{" + Escape(s[1..]) && Escape(s[1..]) == "{" + Escape(s[2..]) by { assert s[1..][1..] == s[2..]; }
      PrefixContained(Escape(s), TAG);
    } else {
      EscapeKeepsTag(s[1..]);
      ContainsPadded(EscapeChar(s[0]), Escape(s[1..]), "", TAG);
      assert EscapeChar(s[0]) + Escape(s[1..]) + "" == Escape(s);
    }
  }

  lemma BracePrints()
    ensures EscapeChar('{') == "{"
  { }

  lemma TagStep(s: string)
    requires Contains(s, TAG)
    ensures TAG <= s || (s != "" && Contains(s[1..], TAG))
  { }

  lemma QuotedKeepsTag(s: string)
    requires Contains(s, TAG)
    ensures Contains(PrintString(s), TAG)
  {
    hide Contains, Escape;
    EscapeKeepsTag(s);
    ContainsPadded(QUOTE, Escape(s), QUOTE, TAG);
  }

  /** Printing keeps a tag that some key or string opens. */
  lemma {:induction false} PrintKeepsTag(j: Json)
    requires !TagFree(j)
    ensures Contains(Print(j), TAG)
    decreases j
  {
    hide Contains, PrintString, PrintItems, PrintFields;
    match j
    case Str(s) => QuotedKeepsTag(s);
    case Arr(items) =>
      ItemsKeepTag(items);
      ContainsPadded("[", PrintItems(items), "]", TAG);
    case Obj(fields) =>
      FieldsKeepTag(fields);
      ContainsPadded("{", PrintFields(fields), "}", TAG);
    case _ =>
  }

  lemma {:induction false} ItemsKeepTag(items: seq<Json>)
    requires !TagFreeItems(items)
    ensures Contains(PrintItems(items), TAG)
    decreases items
  {
    hide Contains, Print, TagFree;
    if !TagFree(items[0]) {
      PrintKeepsTag(items[0]);
      ContainsFollowed(Print(items[0]), MoreItems(items[1..]), TAG);
    } else {
      assert !TagFreeItems(items[1..]) by { RestOpensItems(items); }
      ItemsKeepTag(items[1..]);
      ContainsPadded(Print(items[0]) + ",", PrintItems(items[1..]), "", TAG);
      assert Print(items[0]) + "," + PrintItems(items[1..]) + "" == PrintItems(items);
    }
  }

  lemma RestOpensItems(items: seq<Json>)
    requires !TagFreeItems(items) && TagFree(items[0])
    ensures !TagFreeItems(items[1..])
  {
    hide TagFree;
    var i :| 0 <= i < |items| && !TagFree(items[i]);
    assert items[1..][i - 1] == items[i];
  }

  lemma {:induction false} FieldsKeepTag(fields: seq<Field>)
    requires !TagFreeFields(fields)
    ensures Contains(PrintFields(fields), TAG)
    decreases fields
  {
    hide Contains, Print, PrintString, TagFree;
    var key, value, more := PrintString(fields[0].key), Print(fields[0].value), MoreFields(fields[1..]);
    assert PrintFields(fields) == key + ":" + value + more;
    if Contains(fields[0].key, TAG) {
      QuotedKeepsTag(fields[0].key);
      ContainsFollowed(key, ":" + value + more, TAG);
      assert key + (":" + value + more) == PrintFields(fields);
    } else if !TagFree(fields[0].value) {
      PrintKeepsTag(fields[0].value);
      ContainsPadded(key + ":", value, more, TAG);
    } else {
      RestOpensFields(fields);
      FieldsKeepTag(fields[1..]);
      ContainsPadded(key + ":" + value + ",", PrintFields(fields[1..]), "", TAG);
      assert key + ":" + value + "," + PrintFields(fields[1..]) + "" == PrintFields(fields);
    }
  }

  lemma RestOpensFields(fields: seq<Field>)
    requires !TagFreeFields(fields) && !Contains(fields[0].key, TAG) && TagFree(fields[0].value)
    ensures !TagFreeFields(fields[1..]) && fields[1..] != []
  {
    hide TagFree, Contains;
    var i :| 0 <= i < |fields| && !(!Contains(fields[i].key, TAG) && TagFree(fields[i].value));
    assert fields[1..][i - 1] == fields[i];
  }

  /** Putting text in the place of a leaf that opens no tag takes no tag away. */
  lemma {:induction false} SubstKeepsTag(j: Json, from: string, x: string)
    requires !TagFree(j) && !Contains(from, TAG)
    ensures !TagFree(Subst(j, Str(from), Str(x)))
    decreases j
  {
    match j
    case Arr(items) => SubstItemsKeepsTag(items, from, x);
    case Obj(fields) => SubstFieldsKeepsTag(fields, from, x);
    case _ =>
  }

  lemma {:induction false} SubstItemsKeepsTag(items: seq<Json>, from: string, x: string)
    requires !TagFreeItems(items) && !Contains(from, TAG)
    ensures !TagFreeItems(SubstItems(items, Str(from), Str(x)))
    decreases items
  {
    hide Contains, TagFree, Subst;
    var r := SubstItems(items, Str(from), Str(x));
    assert r[0] == Subst(items[0], Str(from), Str(x)) && r[1..] == SubstItems(items[1..], Str(from), Str(x));
    if !TagFree(items[0]) {
      SubstKeepsTag(items[0], from, x);
    } else {
      RestOpensItems(items);
      SubstItemsKeepsTag(items[1..], from, x);
      assert forall i :: 0 <= i < |r| - 1 ==> r[1..][i] == r[i + 1];
    }
  }

  lemma {:induction false} SubstFieldsKeepsTag(fields: seq<Field>, from: string, x: string)
    requires !TagFreeFields(fields) && !Contains(from, TAG)
    ensures !TagFreeFields(SubstFields(fields, Str(from), Str(x)))
    decreases fields
  {
    hide Contains, TagFree, Subst;
    var r := SubstFields(fields, Str(from), Str(x));
    assert r[0] == Field(fields[0].key, Subst(fields[0].value, Str(from), Str(x)));
    assert r[1..] == SubstFields(fields[1..], Str(from), Str(x));
    if Contains(fields[0].key, TAG) {
    } else if !TagFree(fields[0].value) {
      SubstKeepsTag(fields[0].value, from, x);
    } else {
      RestOpensFields(fields);
      SubstFieldsKeepsTag(fields[1..], from, x);
      assert forall i :: 0 <= i < |r| - 1 ==> r[1..][i] == r[i + 1];
    }
  }

  lemma MarkerOpensNoTag(marker: string)
    requires IsMarker(marker)
    ensures !Contains(marker, TAG)
  {
    hide IsMarker, Contains;
    MarkerText(marker);
    ForeignStart(marker, TAG);
  }

  /** As long as no caller text looks like the hole, the filled template holds a tag exactly when the rendered query
      opened one. */
  lemma TagsLeftIff(j: Json, marker: string, x: string)
    requires IsMarker(marker) && Valid(j) && CandidateScalars(j, marker, "") && HoleFree(j) && !Contains(x, TAG)
    ensures !Contains(Fill(Freeze(j, marker).value, x), TAG) <==> TagFree(j)
  {
    hide Print, Valid, TagFree, HoleFree, CandidateScalars, Subst, Fill, Freeze, Contains, IsMarker;
    if TagFree(j) {
      OnlyHolesAreTags(j, marker, x);
    } else {
      MarkerOpensNoTag(marker);
      SubstKeepsTag(j, marker, x);
      PrintKeepsTag(Subst(j, Str(marker), Str(x)));
      FillIsSubstitution(j, marker, x);
    }
  }

  /** Freezing is right in both respects, for every suggestion, exactly when the rendered query opens no tag: the filled
      template is the query with the suggestion in its places, and a suggestion without a tag leaves none to expand. */
  lemma FreezeIsRightIff(j: Json, marker: string)
    requires IsMarker(marker) && Valid(j) && CandidateScalars(j, marker, "")
    ensures TagFree(j) <==>
              && (forall x: string :: Fill(Freeze(j, marker).value, x) == Print(Subst(j, Str(marker), Str(x))))
              && (forall x: string :: !Contains(x, TAG) ==> !Contains(Fill(Freeze(j, marker).value, x), TAG))
  {
    hide Print, Valid, TagFree, HoleFree, CandidateScalars, Subst, Fill, Freeze, Contains, IsMarker;
    FillExactIffHoleFree(j, marker);
    if TagFree(j) {
      TagFreeIsHoleFree(j);
      forall x: string | !Contains(x, TAG) { TagsLeftIff(j, marker, x); }
    } else if HoleFree(j) {
      TooShort("", TAG);
      TagsLeftIff(j, marker, "");
    }
  }

  lemma {:induction false} ForeignStart(s: string, sub: string)
    requires sub != "" && sub[0] !in s
    ensures !Contains(s, sub)
  {
    if s != "" { ForeignStart(s[1..], sub); }
  }

  /** A short template tag, such as {{suggestion}} itself. */
  ghost predicate OtherTag(s: string) {
    TAG <= s && |s| < |HOLE| && ':' !in s && forall i :: 0 <= i < |s| ==> Simple(s[i])
  }

  lemma OtherText(s: string, marker: string)
    requires OtherTag(s) && IsMarker(marker)
    ensures !Contains(s, HOLE) && !Contains(s, marker) && s != marker && Contains(PrintString(s), TAG)
  {
    hide Simple, IsMarker, Plain, Escape;
    MarkerText(marker);
    ForeignStart(s, marker);
    TooShort(s, HOLE);
    SimpleIsPlain(s);
    PlainEscape(s, "");
    EscapeNothing();
    assert s + "" == s;
    var text := PrintString(s);
    assert text != "" && TAG <= text[1..] by { assert text[1..][..2] == s[..2]; }
  }

  /** A string with another tag is accepted and holds no text of the hole, yet the tag stays in the filled template,
      where a template engine would expand it. */
  lemma OtherTagRemains(s: string, marker: string, x: string)
    requires OtherTag(s) && IsMarker(marker)
    ensures CandidateScalars(Str(s), marker, "") && HoleFree(Str(s)) && !TagFree(Str(s))
    ensures Contains(Fill(Freeze(Str(s), marker).value, x), TAG)
  {
    hide IsMarker, Fill, Freeze, Contains, PrintString;
    OtherText(s, marker);
    FillIsSubstitution(Str(s), marker, x);
    PrefixContained(s, TAG);
  }

  lemma PrefixContained(s: string, sub: string)
    requires sub <= s
    ensures Contains(s, sub)
  { }
}
