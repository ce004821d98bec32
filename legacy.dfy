/** The legacy article validation report: every live article, newest
    first, becomes one CSV line of ten fields (identity, image, author and
    meta description facts, and the names of the checks it fails). The
    report only reads the table. */
module LegacyValidation {
  import opened Wrappers
  import opened Text
  import opened Js
  import Html
  import Paging

  // ---------------------------------------------------------------------------
  // CSV fields

  /** A field is quoted when it holds a double quote, a comma or a line
      feed. */
  predicate NeedsQuotes(text: string) {
    exists i :: 0 <= i < |text| && (text[i] == '"' || text[i] == ',' || text[i] == '\n')
  }

  /** `text.replace(/"/g, '""')`. */
  function DoubleQuotes(text: string): (r: string)
    ensures |r| >= |text|
  {
    if text == [] then []
    else (if text[0] == '"' then "\"\"" else [text[0]]) + DoubleQuotes(text[1..])
  }

  /** `csvEscape` of a text: quoted, with inner quotes doubled, when it
      needs quotes; as it is otherwise. The text is changed exactly when it
      needs quotes, and then wrapped in them. */
  function Escape(text: string): (r: string)
    ensures r != text <==> NeedsQuotes(text)
    ensures NeedsQuotes(text) ==> |r| >= 2 && r[0] == '"' && r[|r| - 1] == '"'
  {
    if NeedsQuotes(text) then "\"" + DoubleQuotes(text) + "\"" else text
  }

  /** `String(value ?? '')`. */
  function Shown(v: Value): string {
    if Nullish(v) then "" else ToStr(v)
  }

  /** `csvEscape(value)`: the text of the value, escaped; `null` and
      `undefined` give an empty field. */
  function CsvEscape(v: Value): (r: string)
    ensures Unescape(r) == Shown(v)
    ensures Nullish(v) ==> r == []
    ensures v.Str? ==> Unescape(r) == v.s
  {
    EscapeRoundTrip(Shown(v));
    Escape(Shown(v))
  }

  /** Reading one field back: a quoted field loses its outer quotes and
      reads each `""` inside as `"`. */
  function Unescape(field: string): string {
    if |field| >= 2 && field[0] == '"' && field[|field| - 1] == '"' then CollapseQuotes(field[1..|field| - 1])
    else field
  }

  /** Each `""` read as `"`. */
  function CollapseQuotes(s: string): string
    decreases |s|
  {
    if s == [] then []
    else if |s| >= 2 && s[0] == '"' && s[1] == '"' then "\"" + CollapseQuotes(s[2..])
    else [s[0]] + CollapseQuotes(s[1..])
  }

  /** Unescaping an escaped field gives the text back. */
  lemma EscapeRoundTrip(text: string)
    ensures Unescape(Escape(text)) == text
  {
    if NeedsQuotes(text) {
      var e := Escape(text);
      assert e[1..|e| - 1] == DoubleQuotes(text);
      CollapseDoubled(text);
    } else if |text| >= 2 && text[0] == '"' {
      assert NeedsQuotes(text);
    }
  }

  /** Collapsing doubled quotes undoes doubling them. */
  lemma {:induction false} CollapseDoubled(text: string)
    ensures CollapseQuotes(DoubleQuotes(text)) == text
  {
    if text != [] {
      CollapseDoubled(text[1..]);
      var rest := DoubleQuotes(text[1..]);
      if text[0] == '"' {
        assert ("\"\"" + rest)[2..] == rest;
      } else {
        assert ([text[0]] + rest)[1..] == rest;
      }
      assert text == [text[0]] + text[1..];
    }
  }

  /** A lone carriage return does not make a field quoted. */
  lemma CarriageReturnUnquoted()
    ensures Escape("a\rb") == "a\rb"
  {
    var s := "a\rb";
    assert !NeedsQuotes(s) by {
      forall i | 0 <= i < |s|
        ensures s[i] != '"' && s[i] != ',' && s[i] != '\n'
      {
      }
    }
  }

  // ---------------------------------------------------------------------------
  // Reading a CSV record

  /** The body of a quoted field up to its closing quote, `""` read as
      `"`, and what follows the closing quote. */
  function ReadQuoted(s: string): (r: Option<(string, string)>)
    ensures r.Some? ==> |r.value.1| < |s|
    decreases |s|
  {
    if s == [] then None
    else if s[0] == '"' then
      if |s| >= 2 && s[1] == '"' then
        match ReadQuoted(s[2..])
        case None => None
        case Some((text, rest)) => Some(("\"" + text, rest))
      else Some(([], s[1..]))
    else
      match ReadQuoted(s[1..])
      case None => None
      case Some((text, rest)) => Some(([s[0]] + text, rest))
  }

  /** An unquoted field up to the next comma, and the rest from that
      comma. */
  function ReadPlain(s: string): (r: (string, string))
    ensures |r.1| <= |s| && (r.1 == [] || r.1[0] == ',')
  {
    if s == [] || s[0] == ',' then ([], s)
    else
      var (text, rest) := ReadPlain(s[1..]);
      ([s[0]] + text, rest)
  }

  /** The fields of one CSV record, or `None` when a quoted field is not
      closed or is followed by something other than a comma. */
  function ParseRecord(s: string): (r: Option<seq<string>>)
    decreases |s|
  {
    if |s| > 0 && s[0] == '"' then
      match ReadQuoted(s[1..])
      case None => None
      case Some((text, rest)) =>
        if rest == [] then Some([text])
        else if rest[0] != ',' then None
        else
          match ParseRecord(rest[1..])
          case None => None
          case Some(more) => Some([text] + more)
    else
      var (text, rest) := ReadPlain(s);
      if rest == [] then Some([text])
      else
        match ParseRecord(rest[1..])
        case None => None
        case Some(more) => Some([text] + more)
  }

  /** A doubled text followed by the closing quote reads back as the
      text, when what follows the quote is not another quote. */
  lemma {:induction false} ReadDoubled(text: string, rest: string)
    requires rest == [] || rest[0] == ','
    ensures ReadQuoted(DoubleQuotes(text) + "\"" + rest) == Some((text, rest))
  {
    var s := DoubleQuotes(text) + "\"" + rest;
    if text == [] {
      assert s == "\"" + rest;
      assert s[1..] == rest;
    } else {
      ReadDoubled(text[1..], rest);
      var tail := DoubleQuotes(text[1..]) + "\"" + rest;
      if text[0] == '"' {
        assert s == "\"\"" + tail;
        assert s[2..] == tail;
        assert ReadQuoted(s) == Some(("\"" + text[1..], rest));
      } else {
        assert s == [text[0]] + tail;
        assert s[1..] == tail;
        assert ReadQuoted(s) == Some(([text[0]] + text[1..], rest));
      }
      assert text == [text[0]] + text[1..];
    }
  }

  /** A text without commas reads back as an unquoted field. */
  lemma {:induction false} ReadPlainText(text: string, rest: string)
    requires forall i :: 0 <= i < |text| ==> text[i] != ','
    requires rest == [] || rest[0] == ','
    ensures ReadPlain(text + rest) == (text, rest)
  {
    if text != [] {
      ReadPlainText(text[1..], rest);
      assert (text + rest)[1..] == text[1..] + rest;
      assert ReadPlain(text + rest) == ([text[0]] + text[1..], rest);
      assert text == [text[0]] + text[1..];
    } else {
      assert text + rest == rest;
    }
  }

  /** One escaped field followed by the rest of a record reads back as
      the text and that rest. */
  lemma ReadEscaped(text: string, rest: string)
    requires rest == [] || rest[0] == ','
    ensures var s := Escape(text) + rest;
      if |s| > 0 && s[0] == '"' then ReadQuoted(s[1..]) == Some((text, rest))
      else ReadPlain(s) == (text, rest)
  {
    if NeedsQuotes(text) {
      ReadQuotedField(text, rest, Escape(text) + rest);
    } else {
      ReadPlainField(text, rest);
    }
  }

  /** A quoted field reads back from just after its opening quote. */
  lemma {:induction false} ReadQuotedField(text: string, rest: string, s: string)
    requires NeedsQuotes(text) && (rest == [] || rest[0] == ',') && s == Escape(text) + rest
    ensures |s| > 0 && s[0] == '"'
    ensures ReadQuoted(s[1..]) == Some((text, rest))
  {
    EscapedShape(text, rest, s);
    ReadDoubled(text, rest);
  }

  /** A quoted field and what follows it: the opening quote, the doubled
      text, the closing quote and the rest. */
  lemma EscapedShape(text: string, rest: string, s: string)
    requires NeedsQuotes(text) && s == Escape(text) + rest
    ensures |s| > 0 && s[0] == '"' && s[1..] == DoubleQuotes(text) + "\"" + rest
  {
    var body := DoubleQuotes(text) + "\"" + rest;
    assert Escape(text) == "\"" + DoubleQuotes(text) + "\"";
    assert s == "\"" + body;
  }

  /** A field that needs no quotes reads back as a plain field. */
  lemma ReadPlainField(text: string, rest: string)
    requires !NeedsQuotes(text) && (rest == [] || rest[0] == ',')
    ensures var s := Escape(text) + rest;
      (|s| == 0 || s[0] != '"') && ReadPlain(s) == (text, rest)
  {
    assert forall i :: 0 <= i < |text| ==> text[i] != ',' && text[i] != '"';
    ReadPlainText(text, rest);
    if text == [] {
      assert Escape(text) + rest == rest;
    }
  }

  /** The escaped fields of a list of texts. */
  function EscapeAll(texts: seq<string>): (r: seq<string>)
    ensures |r| == |texts|
  {
    seq(|texts|, i requires 0 <= i < |texts| => Escape(texts[i]))
  }

  /** Joining escaped fields with commas gives a record that reads back
      as the same fields. */
  lemma {:induction false} RecordRoundTrip(texts: seq<string>)
    requires |texts| >= 1
    ensures ParseRecord(Join(EscapeAll(texts), ",")) == Some(texts)
    decreases |texts|
  {
    if |texts| == 1 {
      assert Join(EscapeAll(texts), ",") == Escape(texts[0]);
      OneFieldRoundTrip(texts[0]);
      assert texts == [texts[0]];
    } else {
      RecordRoundTrip(texts[1..]);
      RecordRoundTripStep(texts);
    }
  }

  /** One escaped field alone reads back as that field. */
  lemma OneFieldRoundTrip(text: string)
    ensures ParseRecord(Escape(text)) == Some([text])
  {
    var first := Escape(text);
    ReadEscaped(text, []);
    assert first + [] == first;
    if |first| > 0 && first[0] == '"' {
      assert first[1..] == (first + [])[1..];
    }
  }

  /** A first escaped field and a comma in front of a record that reads
      back give a record that reads back with that field in front. */
  lemma RecordRoundTripStep(texts: seq<string>)
    requires |texts| >= 2
    requires ParseRecord(Join(EscapeAll(texts[1..]), ",")) == Some(texts[1..])
    ensures ParseRecord(Join(EscapeAll(texts), ",")) == Some(texts)
  {
    var tail := Join(EscapeAll(texts[1..]), ",");
    assert EscapeAll(texts)[1..] == EscapeAll(texts[1..]);
    assert Join(EscapeAll(texts), ",") == Escape(texts[0]) + ("," + tail);
    FieldThenRecord(texts[0], tail, texts[1..]);
    assert texts == [texts[0]] + texts[1..];
  }

  /** An escaped field, a comma and a record that reads back as `more`
      read back as the field followed by `more`. */
  lemma FieldThenRecord(text: string, tail: string, more: seq<string>)
    requires ParseRecord(tail) == Some(more)
    ensures ParseRecord(Escape(text) + ("," + tail)) == Some([text] + more)
  {
    var rest := "," + tail;
    var s := Escape(text) + rest;
    ReadEscaped(text, rest);
    assert rest[1..] == tail;
    if |s| > 0 && s[0] == '"' {
      assert ReadQuoted(s[1..]) == Some((text, rest));
    } else {
      assert ReadPlain(s) == (text, rest);
    }
  }

  // ---------------------------------------------------------------------------
  // Issues

  /** The checks of one article, in the order the report declares them. */
  const FlagNames: seq<string> := [
    "missing_featured_image", "image_width_below_1200", "missing_author", "empty_author_bio",
    "missing_publishedAt", "meta_description_missing", "title_below_20_chars"]

  /** The names of the raised flags, in declaration order. */
  function Raised(flags: seq<(string, bool)>): (r: seq<string>)
    ensures |r| <= |flags|
  {
    if flags == [] then []
    else (if flags[0].1 then [flags[0].0] else []) + Raised(flags[1..])
  }

  /** `buildIssues(flags)`: the raised names joined with `"; "`. When the
      names can be read back, the field lists the raised names in
      declaration order and is empty exactly when no flag is raised. */
  function BuildIssues(flags: seq<(string, bool)>): (r: string)
    ensures (forall k :: 0 <= k < |flags| ==> IssueName(flags[k].0)) ==>
      ReadIssues(r) == Raised(flags) && (r == [] <==> forall k :: 0 <= k < |flags| ==> !flags[k].1)
  {
    IssuesOfFlags(flags);
    Join(Raised(flags), "; ")
  }

  /** A flag name: not empty, and without the `;` that separates names. */
  predicate IssueName(name: string) {
    name != [] && Free(name, ';')
  }

  /** `p` without one leading space. */
  function DropSpace(p: string): string {
    if |p| > 0 && p[0] == ' ' then p[1..] else p
  }

  /** Reading an issues field back: split at `;` and drop the space after
      each separator. */
  function ReadIssues(text: string): seq<string> {
    if text == [] then []
    else
      var parts := Split(text, ';');
      [parts[0]] + seq(|parts| - 1, i requires 0 <= i < |parts| - 1 => DropSpace(parts[i + 1]))
  }

  /** Every name given a leading space. */
  function Spaced(names: seq<string>): (r: seq<string>)
    ensures |r| == |names|
  {
    seq(|names|, i requires 0 <= i < |names| => " " + names[i])
  }

  /** A leading space on the first piece is a leading space on the join. */
  lemma JoinFrontSpace(name: string, more: seq<string>, sep: string)
    ensures Join([" " + name] + more, sep) == " " + Join([name] + more, sep)
  {
    if more != [] {
      assert ([" " + name] + more)[1..] == more;
      assert ([name] + more)[1..] == more;
    }
  }

  /** Joining with `"; "` is joining with `;` the names after the first
      each given a leading space. */
  lemma {:induction false} JoinSpaced(names: seq<string>)
    requires |names| >= 1
    ensures Join(names, "; ") == Join([names[0]] + Spaced(names[1..]), ";")
  {
    if |names| > 1 {
      var tail := names[1..];
      JoinSpaced(tail);
      assert tail[1..] == names[2..];
      assert Spaced(tail) == [" " + tail[0]] + Spaced(tail[1..]);
      JoinFrontSpace(tail[0], Spaced(tail[1..]), ";");
      assert ([names[0]] + Spaced(tail))[1..] == Spaced(tail);
      assert Join([names[0]] + Spaced(tail), ";") == names[0] + ";" + Join(Spaced(tail), ";");
    }
  }

  /** Flag names joined with `"; "` read back as the same names. */
  lemma IssueNamesRoundTrip(names: seq<string>)
    requires forall k :: 0 <= k < |names| ==> IssueName(names[k])
    ensures ReadIssues(Join(names, "; ")) == names
  {
    if names != [] {
      var parts := [names[0]] + Spaced(names[1..]);
      var text := Join(names, "; ");
      JoinSpaced(names);
      SpacedFree(names, parts);
      SplitJoin(parts, ';');
      JoinNotEmpty(parts, ";");
      ReadSpaced(names, parts, text);
    }
  }

  /** The pieces of a join of flag names are free of `;`. */
  lemma SpacedFree(names: seq<string>, parts: seq<string>)
    requires |names| >= 1 && parts == [names[0]] + Spaced(names[1..])
    requires forall k :: 0 <= k < |names| ==> IssueName(names[k])
    ensures forall k :: 0 <= k < |parts| ==> Free(parts[k], ';')
  {
    forall k | 0 <= k < |parts|
      ensures Free(parts[k], ';')
    {
      assert IssueName(names[k]);
      if k > 0 {
        assert parts[k] == " " + names[k];
      }
    }
  }

  /** A join whose first piece is not empty is not empty. */
  lemma JoinNotEmpty(parts: seq<string>, sep: string)
    requires |parts| >= 1 && parts[0] != []
    ensures Join(parts, sep) != []
  {
    if |parts| > 1 {
      assert |Join(parts, sep)| >= |parts[0]|;
    }
  }

  /** Text that splits into the names, spaced after the first, reads back
      as the names. */
  lemma ReadSpaced(names: seq<string>, parts: seq<string>, text: string)
    requires |names| >= 1 && parts == [names[0]] + Spaced(names[1..])
    requires text != [] && Split(text, ';') == parts
    ensures ReadIssues(text) == names
  {
    var r := ReadIssues(text);
    assert |r| == |names|;
    forall i | 0 <= i < |names|
      ensures r[i] == names[i]
    {
      if i > 0 {
        assert parts[i] == " " + names[i];
        assert r[i] == DropSpace(parts[i]);
      }
    }
  }

  /** Raised names are names of the flags. */
  lemma {:induction false} RaisedNames(flags: seq<(string, bool)>)
    requires forall k :: 0 <= k < |flags| ==> IssueName(flags[k].0)
    ensures forall j :: 0 <= j < |Raised(flags)| ==> IssueName(Raised(flags)[j])
  {
    if flags != [] {
      RaisedNames(flags[1..]);
      assert IssueName(flags[0].0);
    }
  }

  /** Nothing is raised exactly when every flag is false. */
  lemma {:induction false} NoneRaised(flags: seq<(string, bool)>)
    ensures Raised(flags) == [] <==> forall k :: 0 <= k < |flags| ==> !flags[k].1
  {
    if flags != [] {
      NoneRaised(flags[1..]);
      assert forall k :: 1 <= k < |flags| ==> flags[k] == flags[1..][k - 1];
    }
  }

  /** Raised names that can be read back, joined: they read back in order,
      and the text is empty exactly when no flag is raised. */
  lemma IssuesOfFlags(flags: seq<(string, bool)>)
    ensures (forall k :: 0 <= k < |flags| ==> IssueName(flags[k].0)) ==>
      ReadIssues(Join(Raised(flags), "; ")) == Raised(flags)
      && (Join(Raised(flags), "; ") == [] <==> forall k :: 0 <= k < |flags| ==> !flags[k].1)
  {
    if forall k :: 0 <= k < |flags| ==> IssueName(flags[k].0) {
      RaisedNames(flags);
      IssueNamesRoundTrip(Raised(flags));
      NoneRaised(flags);
    }
  }

  /** The report's check names are flag names. */
  lemma FlagNamesAreIssueNames()
    ensures forall k :: 0 <= k < |FlagNames| ==> IssueName(FlagNames[k])
  {
    forall k | 0 <= k < |FlagNames|
      ensures IssueName(FlagNames[k])
    {
      var n := FlagNames[k];
      forall i | 0 <= i < |n|
        ensures n[i] != ';'
      {
      }
    }
  }

  // ---------------------------------------------------------------------------
  // One report row

  /** The facts the report keeps about one article. */
  datatype ReportRow = ReportRow(
    id: string, slug: string, title: string, publishedAt: string,
    featuredImageUrl: string, featuredImageWidth: Value,
    authorName: string, authorBioLength: nat, metaDescriptionLength: nat,
    issues: string)

  /** `entity?.featured_image || null`. */
  function FeaturedImage(entity: Value): Value { Or(Get(entity, "featured_image"), Null) }

  /** `entity?.author || null`. */
  function AuthorOf(entity: Value): Value { Or(Get(entity, "author"), Null) }

  /** The image width when it is a number, 0 otherwise. */
  function ImageWidth(image: Value): (w: Value)
    ensures IsNumber(w)
  {
    var width := Get(image, "width");
    if IsNumber(width) then width else Num(0)
  }

  /** The author's name, or the Hindi name when there is none. */
  function AuthorName(author: Value): string {
    if Truthy(Get(author, "name")) then ToStr(Get(author, "name")) else TextOf(Get(author, "nameHindi"))
  }

  /** The author's biography (or Hindi biography) as plain text. */
  function AuthorBio(author: Value): string {
    Html.StripHtml(TextOf(Or(Or(Get(author, "bio"), Get(author, "bioHindi")), Str(""))))
  }

  /** `meta_description`, or `seoDescription` when that is empty. */
  function MetaDescription(entity: Value): string {
    if Truthy(Get(entity, "meta_description")) then ToStr(Get(entity, "meta_description"))
    else TextOf(Get(entity, "seoDescription"))
  }

  /** The facts of one article, before its checks are run. */
  function Facts(entity: Value): (r: ReportRow)
    ensures r.issues == []
  {
    var image := FeaturedImage(entity);
    var author := AuthorOf(entity);
    ReportRow(
      TextOf(Get(entity, "id")), TextOf(Get(entity, "slug")), TextOf(Get(entity, "title")),
      TextOf(Get(entity, "publishedAt")), TextOf(Get(image, "url")), ImageWidth(image),
      AuthorName(author), |AuthorBio(author)|, |Trim(MetaDescription(entity))|, [])
  }

  /** The seven checks, in `FlagNames` order, run on the facts of a row and
      on whether the article has an author. */
  function Checks(row: ReportRow, hasAuthor: bool): (r: seq<bool>)
    ensures |r| == |FlagNames|
  {
    [row.featuredImageUrl == [],
     IsNumber(row.featuredImageWidth) && NumGreater(row.featuredImageWidth, 0) && NumLess(row.featuredImageWidth, 1200),
     row.authorName == [],
     hasAuthor && row.authorBioLength == 0,
     row.publishedAt == [],
     row.metaDescriptionLength == 0,
     0 < |Trim(row.title)| < 20]
  }

  /** The checks of one article. */
  function ArticleChecks(entity: Value): (r: seq<bool>)
    ensures |r| == |FlagNames|
  {
    Checks(Facts(entity), Truthy(AuthorOf(entity)))
  }

  /** The checks paired with their names. */
  function Flags(checks: seq<bool>): (r: seq<(string, bool)>)
    requires |checks| == |FlagNames|
    ensures |r| == |FlagNames|
  {
    seq(|FlagNames|, k requires 0 <= k < |FlagNames| => (FlagNames[k], checks[k]))
  }

  /** The report row of one article: its facts, and an issues field that
      names exactly the checks it fails, in declaration order, and is empty
      exactly when it passes them all. */
  function RowOf(entity: Value): (r: ReportRow)
    ensures r.(issues := []) == Facts(entity)
    ensures ReadIssues(r.issues) == Raised(Flags(ArticleChecks(entity)))
    ensures r.issues == [] <==> forall k :: 0 <= k < |FlagNames| ==> !ArticleChecks(entity)[k]
  {
    IssuesOfChecks(ArticleChecks(entity));
    Facts(entity).(issues := BuildIssues(Flags(ArticleChecks(entity))))
  }

  /** The issues of a list of checks read back as the raised names, and are
      empty exactly when every check passes. */
  lemma IssuesOfChecks(checks: seq<bool>)
    requires |checks| == |FlagNames|
    ensures ReadIssues(BuildIssues(Flags(checks))) == Raised(Flags(checks))
    ensures BuildIssues(Flags(checks)) == [] <==> forall k :: 0 <= k < |FlagNames| ==> !checks[k]
  {
    FlagNamesAreIssueNames();
    var flags := Flags(checks);
    assert forall k :: 0 <= k < |flags| ==> flags[k] == (FlagNames[k], checks[k]);
  }

  /** The width check fires only for a finite width strictly between 0 and
      1200: a missing, non-numeric, `NaN` or infinite width never fires it. */
  lemma WidthFlag(entity: Value)
    ensures ArticleChecks(entity)[1] <==>
      RawWidth(entity).Num? && 0 < RawWidth(entity).n < 1200
  {
    var row := Facts(entity);
    var hasAuthor := Truthy(AuthorOf(entity));
    assert ArticleChecks(entity) == Checks(row, hasAuthor);
    assert row.featuredImageWidth == ImageWidth(FeaturedImage(entity));
    WidthCheck(row, hasAuthor);
    WidthOf(FeaturedImage(entity));
  }

  /** A width strictly between 0 and 1200 is one stored as such a number. */
  lemma WidthOf(image: Value)
    ensures ImageWidth(image).Num? && 0 < ImageWidth(image).n < 1200 <==>
      Get(image, "width").Num? && 0 < Get(image, "width").n < 1200
  {
  }

  /** The stored width of the featured image, whatever its type. */
  function RawWidth(entity: Value): Value {
    Get(FeaturedImage(entity), "width")
  }

  /** The width check on a row's facts. */
  lemma WidthCheck(row: ReportRow, hasAuthor: bool)
    ensures Checks(row, hasAuthor)[1] <==>
      row.featuredImageWidth.Num? && 0 < row.featuredImageWidth.n < 1200
  {
  }

  /** The title check fires for a trimmed title of 1 to 19 characters; an
      empty or blank title does not fire it. */
  lemma TitleFlag(entity: Value)
    ensures ArticleChecks(entity)[6] <==> 0 < |Trim(RowOf(entity).title)| < 20
  {
  }

  /** Without an author the name check fires and the biography check does
      not. */
  lemma MissingAuthor(entity: Value)
    requires !Truthy(Get(entity, "author"))
    ensures ArticleChecks(entity)[2] && !ArticleChecks(entity)[3]
  {
    var row := Facts(entity);
    assert AuthorOf(entity) == Null;
    assert ArticleChecks(entity) == Checks(row, false);
    assert row.authorName == AuthorName(Null);
    NoAuthor();
    AuthorChecks(row, false);
  }

  /** Without an author both author columns are empty. */
  lemma MissingAuthorColumns(entity: Value)
    requires !Truthy(Get(entity, "author"))
    ensures RowOf(entity).authorName == [] && RowOf(entity).authorBioLength == 0
  {
    var row := Facts(entity);
    assert AuthorOf(entity) == Null;
    assert RowOf(entity).authorName == row.authorName == AuthorName(Null);
    assert RowOf(entity).authorBioLength == row.authorBioLength == |AuthorBio(Null)|;
    NoAuthor();
  }

  /** The absent author has no name and no biography. */
  lemma NoAuthor()
    ensures AuthorName(Null) == [] && AuthorBio(Null) == []
  {
    assert TextOf(Or(Or(Undefined, Undefined), Str(""))) == [];
    StripNothing();
  }

  /** The author checks on a row's facts. */
  lemma AuthorChecks(row: ReportRow, hasAuthor: bool)
    ensures Checks(row, hasAuthor)[2] <==> row.authorName == []
    ensures Checks(row, hasAuthor)[3] <==> hasAuthor && row.authorBioLength == 0
  {
  }

  /** Stripping the empty text leaves it empty. */
  lemma StripNothing()
    ensures Html.StripHtml([]) == []
  {
    assert Html.RemoveBlocks([], "<script", "</script>") == [];
    assert Html.RemoveBlocks([], "<style", "</style>") == [];
    assert Html.TagsToSpaces([]) == [];
    assert ReplaceRuns([], IsSpace, ' ') == [];
  }

  /** An empty `meta_description` falls back to `seoDescription`. */
  lemma MetaFallsBack(entity: Value)
    requires !Truthy(Get(entity, "meta_description"))
    ensures RowOf(entity).metaDescriptionLength == |Trim(TextOf(Get(entity, "seoDescription")))|
  {
  }

  /** A blank `meta_description` does not fall back: the meta check fires
      even when `seoDescription` has text. */
  lemma BlankMetaHidesSeo(entity: Value)
    requires Get(entity, "meta_description").Str? && Get(entity, "meta_description").s != []
    requires Trim(Get(entity, "meta_description").s) == []
    ensures RowOf(entity).metaDescriptionLength == 0 && ArticleChecks(entity)[5]
  {
    assert MetaDescription(entity) == Get(entity, "meta_description").s;
  }

  // ---------------------------------------------------------------------------
  // The report

  /** Every position is a position of the table. */
  predicate Within(ps: seq<nat>, n: nat) {
    forall j :: 0 <= j < |ps| ==> ps[j] < n
  }

  /** The rows made by `toRow` from the articles at the given positions. */
  function RowsAt<T>(rows: seq<Value>, ps: seq<nat>, toRow: Value -> T): (r: seq<T>)
    requires Within(ps, |rows|)
    ensures |r| == |ps|
  {
    seq(|ps|, j requires 0 <= j < |ps| => toRow(rows[ps[j]]))
  }

  /** The rows of two runs of positions are the rows of each, in order. */
  lemma RowsAtAppend<T>(rows: seq<Value>, ps: seq<nat>, qs: seq<nat>, toRow: Value -> T)
    requires Within(ps, |rows|) && Within(qs, |rows|)
    ensures Within(ps + qs, |rows|)
    ensures RowsAt(rows, ps + qs, toRow) == RowsAt(rows, ps, toRow) + RowsAt(rows, qs, toRow)
  {
    assert forall j :: 0 <= j < |ps + qs| ==> (ps + qs)[j] == if j < |ps| then ps[j] else qs[j - |ps|];
  }

  /** One row per live article, in table order, each made by `toRow`. */
  function LiveRows<T>(rows: seq<Value>, toRow: Value -> T): (r: seq<T>)
    ensures |r| == |Paging.Matching(rows, Paging.Live)|
  {
    Paging.MatchingFacts(rows, Paging.Live);
    RowsAt(rows, Paging.Matching(rows, Paging.Live), toRow)
  }

  /** The report's rows: one per live article, each the row of a live article. */
  function Report(rows: seq<Value>): (r: seq<ReportRow>)
    ensures |r| == |Paging.Matching(rows, Paging.Live)|
    ensures forall j :: 0 <= j < |r| ==> MadeFromLive(rows, RowOf, r[j])
  {
    RowsOfLiveArticles(rows, RowOf);
    LiveRows(rows, RowOf)
  }

  /** `x` is `toRow` of some live article of `rows`. */
  ghost predicate MadeFromLive<T>(rows: seq<Value>, toRow: Value -> T, x: T) {
    exists i :: 0 <= i < |rows| && Paging.Live(rows[i]) && x == toRow(rows[i])
  }

  /** `RowOfLiveArticle` for every row made. */
  lemma RowsOfLiveArticles<T>(rows: seq<Value>, toRow: Value -> T)
    ensures forall j :: 0 <= j < |LiveRows(rows, toRow)| ==> MadeFromLive(rows, toRow, LiveRows(rows, toRow)[j])
  {
    forall j | 0 <= j < |LiveRows(rows, toRow)|
      ensures MadeFromLive(rows, toRow, LiveRows(rows, toRow)[j])
    {
      RowOfLiveArticle(rows, toRow, j);
    }
  }

  /** Every row made is the row of a live article. */
  lemma RowOfLiveArticle<T>(rows: seq<Value>, toRow: Value -> T, j: nat)
    requires j < |LiveRows(rows, toRow)|
    ensures exists i :: 0 <= i < |rows| && Paging.Live(rows[i]) && LiveRows(rows, toRow)[j] == toRow(rows[i])
  {
    var m := Paging.Matching(rows, Paging.Live);
    Paging.MatchingFacts(rows, Paging.Live);
    var i := m[j];
    Paging.MatchingMembers(rows, Paging.Live, i);
    assert LiveRows(rows, toRow)[j] == toRow(rows[i]);
  }

  /** Every live article has its row among the rows made. */
  lemma LiveArticleHasRow<T>(rows: seq<Value>, toRow: Value -> T, i: nat)
    requires i < |rows| && Paging.Live(rows[i])
    ensures exists j :: 0 <= j < |LiveRows(rows, toRow)| && LiveRows(rows, toRow)[j] == toRow(rows[i])
  {
    var m := Paging.Matching(rows, Paging.Live);
    Paging.MatchingFacts(rows, Paging.Live);
    Paging.MatchingMembers(rows, Paging.Live, i);
    var j :| 0 <= j < |m| && m[j] == i;
    assert LiveRows(rows, toRow)[j] == toRow(rows[i]);
  }

  /** The inner loop: the rows of one page, in page order. */
  method BatchRows<T>(rows: seq<Value>, batch: seq<nat>, toRow: Value -> T) returns (made: seq<T>)
    requires Within(batch, |rows|)
    ensures made == RowsAt(rows, batch, toRow)
  {
    made := [];
    for k := 0 to |batch|
      invariant made == RowsAt(rows, batch[..k], toRow)
    {
      assert batch[..k + 1] == batch[..k] + [batch[k]];
      RowsAtAppend(rows, batch[..k], [batch[k]], toRow);
      made := made + [toRow(rows[batch[k]])];
    }
    assert batch[..|batch|] == batch;
  }

  /** The report loop: pages of live articles read at growing offsets,
      each article turned into its row by `toRow`. Nothing is written, so
      the pages together are the live articles in order. */
  method CollectRows<T>(rows: seq<Value>, toRow: Value -> T) returns (report: seq<T>)
    ensures report == LiveRows(rows, toRow)
  {
    ghost var m := Paging.Matching(rows, Paging.Live);
    LiveWithin(rows);
    report := [];
    var start: nat := 0;
    while true
      invariant start <= |m| && report == RowsAt(rows, m[..start], toRow)
      decreases |m| - start
    {
      var batch := Paging.Page(rows, Paging.Live, start, Paging.PageSize);
      if |batch| == 0 {
        LastPage(rows, m, start, batch);
        break;
      }
      PageStep(rows, m, start, batch);
      SliceWithin(m, |rows|, start, start + |batch|);
      RowsAtAppend(rows, m[..start], batch, toRow);
      var made := BatchRows(rows, batch, toRow);
      report := report + made;
      start := start + |batch|;
      if |batch| < Paging.PageSize {
        assert m[..start] == m;
        break;
      }
    }
  }

  /** A page read at `start` extends the live positions before `start`. */
  lemma PageStep(rows: seq<Value>, m: seq<nat>, start: nat, batch: seq<nat>)
    requires m == Paging.Matching(rows, Paging.Live) && start <= |m|
    requires batch == Paging.Page(rows, Paging.Live, start, Paging.PageSize) && batch != []
    ensures start + |batch| <= |m| && m[..start + |batch|] == m[..start] + batch
    ensures |batch| < Paging.PageSize ==> start + |batch| == |m|
    ensures batch == m[start..start + |batch|]
  {
    Paging.PageIsSlice(rows, Paging.Live, start, Paging.PageSize);
    var end := start + |batch|;
    assert batch == m[start..end];
  }

  /** A run of positions of the table holds positions of the table. */
  lemma SliceWithin(ps: seq<nat>, n: nat, i: nat, j: nat)
    requires Within(ps, n) && i <= j <= |ps|
    ensures Within(ps[i..j], n)
  {
    forall k | 0 <= k < j - i
      ensures ps[i..j][k] < n
    {
      assert ps[i..j][k] == ps[i + k];
    }
  }

  /** The live positions are positions of the table. */
  lemma LiveWithin(rows: seq<Value>)
    ensures Within(Paging.Matching(rows, Paging.Live), |rows|)
  {
    Paging.MatchingFacts(rows, Paging.Live);
  }

  /** The loop stops once the pages have covered every live position. */
  lemma LastPage(rows: seq<Value>, m: seq<nat>, start: nat, batch: seq<nat>)
    requires m == Paging.Matching(rows, Paging.Live) && start <= |m|
    requires batch == [] && (batch == Paging.Page(rows, Paging.Live, start, Paging.PageSize) || start == |m|)
    ensures m[..start] == m
  {
    Paging.PageIsSlice(rows, Paging.Live, start, Paging.PageSize);
  }

  // ---------------------------------------------------------------------------
  // CSV lines

  /** The column names, in order. */
  const Header: seq<string> := [
    "id", "slug", "title", "publishedAt", "featuredImageUrl", "featuredImageWidth",
    "authorName", "authorBioLength", "metaDescriptionLength", "issues"]

  /** `header.join(',')`: the names are written without escaping, so the
      line reads back as the column names and holds no line feed. */
  function HeaderLine(): (r: string)
    ensures ParseRecord(r) == Some(Header)
    ensures Free(r, '\n')
  {
    HeaderNames();
    EscapeColumnNames(Header);
    RecordRoundTrip(Header);
    JoinFree(Header, ",", '\n');
    Join(Header, ",")
  }

  /** The values of one row, in column order. */
  function Cells(row: ReportRow): (r: seq<Value>)
    ensures |r| == |Header|
  {
    [Str(row.id), Str(row.slug), Str(row.title), Str(row.publishedAt), Str(row.featuredImageUrl),
     row.featuredImageWidth, Str(row.authorName), Num(row.authorBioLength),
     Num(row.metaDescriptionLength), Str(row.issues)]
  }

  /** The CSV line of one row: its cells escaped and joined with commas. It
      reads back as the row's ten column texts exactly, whatever commas,
      quotes or line feeds they contain. */
  function Line(row: ReportRow): (r: string)
    ensures ParseRecord(r) == Some(CellTexts(row))
  {
    var cells := Cells(row);
    var texts := CellTexts(row);
    assert forall i :: 0 <= i < |cells| ==> Shown(cells[i]) == texts[i];
    assert seq(|cells|, i requires 0 <= i < |cells| => CsvEscape(cells[i])) == EscapeAll(texts);
    RecordRoundTrip(texts);
    Join(seq(|cells|, i requires 0 <= i < |cells| => CsvEscape(cells[i])), ",")
  }

  /** The texts a reader gets back from one row's line. */
  function CellTexts(row: ReportRow): (r: seq<string>)
    ensures |r| == |Header|
  {
    [row.id, row.slug, row.title, row.publishedAt, row.featuredImageUrl,
     Shown(row.featuredImageWidth), row.authorName, IntToString(row.authorBioLength),
     IntToString(row.metaDescriptionLength), row.issues]
  }

  /** A column name: ASCII letters only. */
  predicate IsColumnName(name: string) {
    forall i :: 0 <= i < |name| ==> 'a' <= name[i] <= 'z' || 'A' <= name[i] <= 'Z'
  }

  /** The header's names are column names. */
  lemma HeaderNames()
    ensures forall k :: 0 <= k < |Header| ==> IsColumnName(Header[k])
  {
    forall k | 0 <= k < |Header|
      ensures IsColumnName(Header[k])
    {
    }
  }

  /** Column names are written as they are. */
  lemma EscapeColumnNames(names: seq<string>)
    requires forall k :: 0 <= k < |names| ==> IsColumnName(names[k])
    ensures EscapeAll(names) == names
  {
    forall k | 0 <= k < |names|
      ensures Escape(names[k]) == names[k]
    {
      ColumnNameUnquoted(names[k]);
    }
  }

  /** A column name needs no quotes. */
  lemma ColumnNameUnquoted(name: string)
    requires IsColumnName(name)
    ensures !NeedsQuotes(name)
  {
  }

  /** Pieces and a separator without `c` join to text without `c`. */
  lemma {:induction false} JoinFree(parts: seq<string>, sep: string, c: char)
    requires Free(sep, c) && forall k :: 0 <= k < |parts| ==> Free(parts[k], c)
    ensures Free(Join(parts, sep), c)
  {
    if |parts| > 1 {
      JoinFree(parts[1..], sep, c);
      var rest := Join(parts[1..], sep);
      assert Free(parts[0], c);
      assert Join(parts, sep) == parts[0] + sep + rest;
    }
  }

  /** Each item's line, in order. */
  function Lines<T>(items: seq<T>, line: T -> string): (r: seq<string>)
    ensures |r| == |items|
  {
    seq(|items|, i requires 0 <= i < |items| => line(items[i]))
  }

  /** The lines of one more item. */
  lemma LinesSnoc<T>(items: seq<T>, line: T -> string, i: nat)
    requires i < |items|
    ensures Lines(items[..i + 1], line) == Lines(items[..i], line) + [line(items[i])]
  {
    assert items[..i + 1][i] == items[i];
  }

  /** The lines of the file: the header, then one line per row. */
  method CsvLines<T>(header: string, report: seq<T>, line: T -> string) returns (lines: seq<string>)
    ensures lines == [header] + Lines(report, line)
  {
    lines := [header];
    for i := 0 to |report|
      invariant lines == [header] + Lines(report[..i], line)
    {
      LinesSnoc(report, line, i);
      assert [header] + Lines(report[..i + 1], line) == lines + [line(report[i])];
      lines := lines + [line(report[i])];
    }
    assert report[..|report|] == report;
  }

  /** The text of the report file: its lines joined with line feeds. */
  function ReportFile(rows: seq<Value>): string {
    Join([HeaderLine()] + Lines(Report(rows), Line), "\n")
  }

  /** The whole script on a table: collect the rows, write the lines. */
  method WriteReport(rows: seq<Value>) returns (file: string)
    ensures file == ReportFile(rows)
  {
    var report := CollectRows(rows, RowOf);
    var lines := CsvLines(HeaderLine(), report, Line);
    file := Join(lines, "\n");
  }

  /** The file starts with the header line. */
  lemma FileStartsWithHeader(rows: seq<Value>)
    ensures Split(ReportFile(rows), '\n')[0] == HeaderLine()
  {
    FirstLine(HeaderLine(), Lines(Report(rows), Line));
  }

  /** Splitting joined lines at line feeds gives back the first line when
      it holds no line feed. */
  lemma FirstLine(first: string, more: seq<string>)
    requires Free(first, '\n')
    ensures Split(Join([first] + more, "\n"), '\n')[0] == first
  {
    assert first + [] == first;
    if more == [] {
      assert [first] + more == [first];
      SplitPrefix(first, [], '\n');
    } else {
      var rest := Join(more, "\n");
      assert ([first] + more)[1..] == more;
      assert Join([first] + more, "\n") == first + ("\n" + rest);
      SplitPrefix(first, "\n" + rest, '\n');
      SplitSeparator(rest, '\n');
    }
  }
}
