/** The pure helpers of common/ui: HTML escaping, camel-case to hyphen conversion, the
    data-element selectors a UI instance queries its container with, the presentable form
    of a JSON value, the lines of an error stack trace, user-setting lookup and the button
    row of a dialog. Markup is modelled by its structure; the tag builders themselves are
    not part of this model. */
module Ui {
  import opened Wrappers
  import opened Text
  import opened JsValue

  // ---------------------------------------------------------------------------------------
  // htmlEncode

  /** The number of occurrences of c in s. */
  function Count(s: string, c: char): nat {
    if |s| == 0 then 0 else (if s[0] == c then 1 else 0) + Count(s[1..], c)
  }

  /** A character occurs exactly when its count is positive. */
  lemma {:induction false} CountPositive(s: string, c: char)
    ensures c in s <==> Count(s, c) > 0
  {
    if |s| > 0 {
      assert s == [s[0]] + s[1..];
      CountPositive(s[1..], c);
    }
  }

  /** Counts add up over concatenation. */
  lemma {:induction false} CountConcat(a: string, b: string, c: char)
    ensures Count(a + b, c) == Count(a, c) + Count(b, c)
  {
    if |a| == 0 {
      assert a + b == b;
    } else {
      assert (a + b)[0] == a[0] && (a + b)[1..] == a[1..] + b;
      CountConcat(a[1..], b, c);
    }
  }

  /** 1 when c occurs in s, else 0. */
  function Present(s: string, c: char): nat {
    if c in s then 1 else 0
  }

  /** htmlEncode: each of &, ', ", < and > is replaced in that order, and each replace
      is not global, so only the first occurrence of each character is escaped. */
  function HtmlEncode(s: string): (r: string)
    ensures '&' !in s && '\'' !in s && '"' !in s && '<' !in s && '>' !in s ==> r == s
    ensures r == s || |r| > |s|
  {
    var amp := ReplaceFirst(s, '&', "&amp;");
    var apos := ReplaceFirst(amp, '\'', "&#039;");
    var quot := ReplaceFirst(apos, '"', "&quot;");
    var lt := ReplaceFirst(quot, '<', "&lt;");
    ReplaceFirst(lt, '>', "&gt;")
  }

  /** One replace step, counted: the replaced character loses one occurrence and every
      character of the replacement gains its count, when c occurs; otherwise nothing changes. */
  lemma {:induction false} ReplaceFirstCount(t: string, c: char, rep: string, d: char)
    ensures Count(ReplaceFirst(t, c, rep), d) ==
            Count(t, d) - (if c in t && d == c then 1 else 0) + (if c in t then Count(rep, d) else 0)
  {
    if |t| > 0 {
      assert t == [t[0]] + t[1..];
      ReplaceFirstCount(t[1..], c, rep, d);
      if t[0] == c {
        CountConcat(rep, t[1..], d);
      }
    }
  }

  /** A replace step leaves the count of a character it neither removes nor inserts. */
  lemma StepOther(t: string, c: char, rep: string, d: char)
    requires d != c && d !in rep
    ensures Count(ReplaceFirst(t, c, rep), d) == Count(t, d)
  {
    ReplaceFirstCount(t, c, rep, d);
    CountPositive(rep, d);
  }

  /** A replace step removes one occurrence of the replaced character, if any. */
  lemma StepSelf(t: string, c: char, rep: string)
    requires c !in rep
    ensures Count(ReplaceFirst(t, c, rep), c) == Count(t, c) - Present(t, c)
  {
    ReplaceFirstCount(t, c, rep, c);
    CountPositive(rep, c);
  }

  /** A replace step whose escape holds one & adds one & when it replaces something. */
  lemma StepAmp(t: string, c: char, rep: string)
    requires c != '&' && Count(rep, '&') == 1
    ensures Count(ReplaceFirst(t, c, rep), '&') == Count(t, '&') + Present(t, c)
  {
    ReplaceFirstCount(t, c, rep, '&');
  }

  /** htmlEncode escapes exactly one ' when there is one: its count drops by one. */
  lemma HtmlEncodeCountApos(s: string)
    ensures Count(HtmlEncode(s), '\'') == Count(s, '\'') - Present(s, '\'')
  {
    var amp := ReplaceFirst(s, '&', "&amp;");
    var apos := ReplaceFirst(amp, '\'', "&#039;");
    var quot := ReplaceFirst(apos, '"', "&quot;");
    var lt := ReplaceFirst(quot, '<', "&lt;");
    StepOther(s, '&', "&amp;", '\'');
    StepSelf(amp, '\'', "&#039;");
    ReplaceFirstKeeps(s, '&', "&amp;", '\'');
    StepOther(apos, '"', "&quot;", '\'');
    StepOther(quot, '<', "&lt;", '\'');
    StepOther(lt, '>', "&gt;", '\'');
  }

  /** htmlEncode escapes exactly one " when there is one: its count drops by one. */
  lemma HtmlEncodeCountQuot(s: string)
    ensures Count(HtmlEncode(s), '"') == Count(s, '"') - Present(s, '"')
  {
    var amp := ReplaceFirst(s, '&', "&amp;");
    var apos := ReplaceFirst(amp, '\'', "&#039;");
    var quot := ReplaceFirst(apos, '"', "&quot;");
    var lt := ReplaceFirst(quot, '<', "&lt;");
    StepOther(s, '&', "&amp;", '"');
    StepOther(amp, '\'', "&#039;", '"');
    StepSelf(apos, '"', "&quot;");
    ReplaceFirstKeeps(s, '&', "&amp;", '"');
    ReplaceFirstKeeps(amp, '\'', "&#039;", '"');
    StepOther(quot, '<', "&lt;", '"');
    StepOther(lt, '>', "&gt;", '"');
  }

  /** htmlEncode escapes exactly one < when there is one: its count drops by one. */
  lemma HtmlEncodeCountLt(s: string)
    ensures Count(HtmlEncode(s), '<') == Count(s, '<') - Present(s, '<')
  {
    var amp := ReplaceFirst(s, '&', "&amp;");
    var apos := ReplaceFirst(amp, '\'', "&#039;");
    var quot := ReplaceFirst(apos, '"', "&quot;");
    var lt := ReplaceFirst(quot, '<', "&lt;");
    StepOther(s, '&', "&amp;", '<');
    StepOther(amp, '\'', "&#039;", '<');
    StepOther(apos, '"', "&quot;", '<');
    StepSelf(quot, '<', "&lt;");
    ReplaceFirstKeeps(s, '&', "&amp;", '<');
    ReplaceFirstKeeps(amp, '\'', "&#039;", '<');
    ReplaceFirstKeeps(apos, '"', "&quot;", '<');
    StepOther(lt, '>', "&gt;", '<');
  }

  /** htmlEncode escapes exactly one > when there is one: its count drops by one. */
  lemma HtmlEncodeCountGt(s: string)
    ensures Count(HtmlEncode(s), '>') == Count(s, '>') - Present(s, '>')
  {
    var amp := ReplaceFirst(s, '&', "&amp;");
    var apos := ReplaceFirst(amp, '\'', "&#039;");
    var quot := ReplaceFirst(apos, '"', "&quot;");
    var lt := ReplaceFirst(quot, '<', "&lt;");
    StepOther(s, '&', "&amp;", '>');
    StepOther(amp, '\'', "&#039;", '>');
    StepOther(apos, '"', "&quot;", '>');
    StepOther(quot, '<', "&lt;", '>');
    StepSelf(lt, '>', "&gt;");
    ReplaceFirstKeeps(s, '&', "&amp;", '>');
    ReplaceFirstKeeps(amp, '\'', "&#039;", '>');
    ReplaceFirstKeeps(apos, '"', "&quot;", '>');
    ReplaceFirstKeeps(quot, '<', "&lt;", '>');
  }

  /** Each character still to be escaped is present after the earlier steps exactly when it
      is present in the input. */
  lemma EscapeStepsKeepPresence(s: string)
    ensures var amp := ReplaceFirst(s, '&', "&amp;");
            var apos := ReplaceFirst(amp, '\'', "&#039;");
            var quot := ReplaceFirst(apos, '"', "&quot;");
            var lt := ReplaceFirst(quot, '<', "&lt;");
            Present(amp, '\'') == Present(s, '\'') && Present(apos, '"') == Present(s, '"') &&
            Present(quot, '<') == Present(s, '<') && Present(lt, '>') == Present(s, '>')
  {
    var amp := ReplaceFirst(s, '&', "&amp;");
    var apos := ReplaceFirst(amp, '\'', "&#039;");
    var quot := ReplaceFirst(apos, '"', "&quot;");
    ReplaceFirstKeeps(s, '&', "&amp;", '\'');
    ReplaceFirstKeeps(s, '&', "&amp;", '"');
    ReplaceFirstKeeps(s, '&', "&amp;", '<');
    ReplaceFirstKeeps(s, '&', "&amp;", '>');
    ReplaceFirstKeeps(amp, '\'', "&#039;", '"');
    ReplaceFirstKeeps(amp, '\'', "&#039;", '<');
    ReplaceFirstKeeps(amp, '\'', "&#039;", '>');
    ReplaceFirstKeeps(apos, '"', "&quot;", '<');
    ReplaceFirstKeeps(apos, '"', "&quot;", '>');
    ReplaceFirstKeeps(quot, '<', "&lt;", '>');
  }

  /** Every escape holds exactly one &. */
  lemma EscapesHoldOneAmp()
    ensures Count("&amp;", '&') == 1 && Count("&#039;", '&') == 1 && Count("&quot;", '&') == 1
    ensures Count("&lt;", '&') == 1 && Count("&gt;", '&') == 1
  {
    assert "&amp;"[1..][1..][1..][1..][1..] == [];
    assert "&#039;"[1..][1..][1..][1..][1..][1..] == [];
    assert "&quot;"[1..][1..][1..][1..][1..][1..] == [];
    assert "&lt;"[1..][1..][1..][1..] == [];
    assert "&gt;"[1..][1..][1..][1..] == [];
  }

  /** The count of & after htmlEncode: the first & is replaced by an escape that starts
      with &, and every other escape made adds one. */
  lemma HtmlEncodeCountAmp(s: string)
    ensures Count(HtmlEncode(s), '&') ==
            Count(s, '&') + Present(s, '\'') + Present(s, '"') + Present(s, '<') + Present(s, '>')
  {
    var amp := ReplaceFirst(s, '&', "&amp;");
    var apos := ReplaceFirst(amp, '\'', "&#039;");
    var quot := ReplaceFirst(apos, '"', "&quot;");
    var lt := ReplaceFirst(quot, '<', "&lt;");
    ReplaceFirstCount(s, '&', "&amp;", '&');
    EscapesHoldOneAmp();
    StepAmp(amp, '\'', "&#039;");
    StepAmp(apos, '"', "&quot;");
    StepAmp(quot, '<', "&lt;");
    StepAmp(lt, '>', "&gt;");
    EscapeStepsKeepPresence(s);
  }

  /** After a replace step a character is present exactly when it was before, for
      every character other than the replaced one that the replacement does not hold. */
  lemma ReplaceFirstKeeps(t: string, c: char, rep: string, d: char)
    requires d != c && d !in rep
    ensures d in ReplaceFirst(t, c, rep) <==> d in t
  {
    StepOther(t, c, rep, d);
    CountPositive(t, d);
    CountPositive(ReplaceFirst(t, c, rep), d);
  }

  /** htmlEncode lengthens the string by the escapes it makes: 4 for &, 5 for ' and ", and
      3 for < and >. */
  lemma HtmlEncodeLength(s: string)
    ensures |HtmlEncode(s)| ==
            |s| + 4 * Present(s, '&') + 5 * Present(s, '\'') + 5 * Present(s, '"') + 3 * Present(s, '<') + 3 * Present(s, '>')
  {
    EscapeStepsKeepPresence(s);
  }

  /** htmlEncode returns its argument unchanged exactly when none of the five special
      characters occurs in it. */
  lemma HtmlEncodeUnchanged(s: string)
    ensures HtmlEncode(s) == s <==> ('&' !in s && '\'' !in s && '"' !in s && '<' !in s && '>' !in s)
  {
    HtmlEncodeLength(s);
  }

  /** A second < survives htmlEncode: "<<" is encoded as "&lt;<". */
  lemma HtmlEncodeEscapesOnlyFirst()
    ensures HtmlEncode("<<") == "&lt;<"
  {
    assert '&' !in "<<" && '\'' !in "<<" && '"' !in "<<";
    assert ReplaceFirst("<<", '<', "&lt;") == "&lt;" + "<";
    assert '>' !in "&lt;<";
  }

  // ---------------------------------------------------------------------------------------
  // camelToHyphen

  /** The number of upper-case ASCII letters in s. */
  function UpperCount(s: string): nat {
    if |s| == 0 then 0 else (if IsUpper(s[0]) then 1 else 0) + UpperCount(s[1..])
  }

  /** camelToHyphen: every upper-case ASCII letter becomes '-' and its lower-case form;
      every other character is kept. */
  function CamelToHyphen(s: string): (r: string)
    ensures forall k :: 0 <= k < |r| ==> !IsUpper(r[k])
    ensures |r| == |s| + UpperCount(s)
    ensures |s| == 1 ==> r == (if IsUpper(s[0]) then ['-', ToLower(s[0])] else s)
  {
    if |s| == 0 then ""
    else
      var rest := CamelToHyphen(s[1..]);
      if IsUpper(s[0]) then ['-', ToLower(s[0])] + rest else [s[0]] + rest
  }

  /** The conversion works character by character: converting a concatenation converts
      each part. */
  lemma {:induction false} CamelToHyphenAppend(a: string, b: string)
    ensures CamelToHyphen(a + b) == CamelToHyphen(a) + CamelToHyphen(b)
    decreases |a|
  {
    if |a| == 0 {
      assert a + b == b;
    } else {
      assert (a + b)[0] == a[0];
      assert (a + b)[1..] == a[1..] + b;
      CamelToHyphenAppend(a[1..], b);
      var head := if IsUpper(a[0]) then ['-', ToLower(a[0])] else [a[0]];
      ConcatAssoc(head, CamelToHyphen(a[1..]), CamelToHyphen(b));
    }
  }

  /** The inverse direction: '-' before a lower-case letter becomes that letter in upper case. */
  function HyphenToCamel(s: string): string {
    if |s| == 0 then ""
    else if |s| >= 2 && s[0] == '-' && IsLower(s[1]) then [ToUpper(s[1])] + HyphenToCamel(s[2..])
    else [s[0]] + HyphenToCamel(s[1..])
  }

  /** A string without hyphens survives the conversion and its inverse. */
  lemma {:induction false} CamelToHyphenRoundTrip(s: string)
    requires '-' !in s
    ensures HyphenToCamel(CamelToHyphen(s)) == s
    decreases |s|
  {
    if |s| > 0 {
      var rest := CamelToHyphen(s[1..]);
      assert '-' !in s[1..] by {
        assert forall k :: 0 <= k < |s[1..]| ==> s[1..][k] == s[k + 1];
      }
      CamelToHyphenRoundTrip(s[1..]);
      if IsUpper(s[0]) {
        var t := ['-', ToLower(s[0])] + rest;
        assert t[2..] == rest;
        ToUpperToLower(s[0]);
      } else {
        var t := [s[0]] + rest;
        assert t[1..] == rest;
      }
      assert s == [s[0]] + s[1..];
    }
  }

  // ---------------------------------------------------------------------------------------
  // Selectors

  /** A path given to getElement / getElements: a dotted string or a list of names. */
  datatype ElementPath = Dotted(path: string) | Segments(names: seq<string>)

  /** The names of a path: a string is split on '.'. */
  function PathNames(p: ElementPath): seq<string> {
    match p
    case Dotted(s) => Split(s, '.')
    case Segments(names) => names
  }

  /** The attribute selector for one data-element name. */
  function ElementAttr(name: string): string {
    "[data-element=\"" + name + "\"]"
  }

  function ElementAttrs(names: seq<string>): (r: seq<string>)
    ensures |r| == |names| && forall k :: 0 <= k < |names| ==> r[k] == ElementAttr(names[k])
  {
    seq(|names|, k requires 0 <= k < |names| => ElementAttr(names[k]))
  }

  /** The descendant selector for a list of names: their attribute selectors joined by spaces. */
  function ElementSelector(names: seq<string>): string {
    Join(ElementAttrs(names), " ")
  }

  /** What getElement queries: the container itself for an empty list of names, otherwise the
      first match of the selector. */
  datatype Query = WholeContainer | QuerySelector(selector: string)

  /** getElement: an empty list gives the container; a string never does, since splitting
      it always gives at least one name. */
  function GetElement(p: ElementPath): (q: Query)
    ensures q.WholeContainer? <==> p.Segments? && p.names == []
    ensures q.QuerySelector? ==> q.selector == ElementSelector(PathNames(p))
  {
    var names := PathNames(p);
    if |names| == 0 then WholeContainer else QuerySelector(ElementSelector(names))
  }

  /** getElements: the selector passed to querySelectorAll, or None for an empty list of
      names, whose empty selector querySelectorAll rejects with a SyntaxError. */
  function GetElements(p: ElementPath): (selector: Option<string>)
    ensures selector.None? <==> GetElement(p) == WholeContainer
    ensures selector.Some? ==> GetElement(p) == QuerySelector(selector.value)
  {
    var names := PathNames(p);
    if |names| == 0 then None else Some(ElementSelector(names))
  }

  /** A dotted string and the list of its names select the same element. */
  lemma DottedPathIsSegments(names: seq<string>)
    requires |names| >= 1
    requires forall k :: 0 <= k < |names| ==> '.' !in names[k]
    ensures GetElement(Dotted(Join(names, "."))) == GetElement(Segments(names))
    ensures GetElements(Dotted(Join(names, "."))) == GetElements(Segments(names))
  {
    SplitJoin(names, '.');
  }

  /** The selector is the names' attribute selectors separated by single spaces: splitting it
      on ' ' gives them back, one per name, when no name holds a space. */
  lemma ElementSelectorSegments(names: seq<string>)
    requires |names| >= 1
    requires forall k :: 0 <= k < |names| ==> ' ' !in names[k]
    ensures Split(ElementSelector(names), ' ') == ElementAttrs(names)
  {
    var attrs := ElementAttrs(names);
    forall k | 0 <= k < |attrs| ensures ' ' !in attrs[k] {
      assert attrs[k] == "[data-element=\"" + names[k] + "\"]";
    }
    SplitJoin(attrs, ' ');
  }

  /** One data attribute of a findNode path segment: data-key="value". */
  datatype DataAttr = DataAttr(key: string, value: string)

  function DataAttrSelector(a: DataAttr): string {
    "[data-" + a.key + "=\"" + a.value + "\"]"
  }

  /** The attribute selectors of one segment, concatenated (all must match one element). */
  function SegmentSelector(segment: seq<DataAttr>): (r: string)
    ensures |segment| == 0 ==> r == ""
    ensures |segment| == 1 ==> r == DataAttrSelector(segment[0])
  {
    Join(seq(|segment|, j requires 0 <= j < |segment| => DataAttrSelector(segment[j])), "")
  }

  /** The selectors of a segment's attributes follow one another in the segment's order. */
  lemma SegmentSelectorAppend(a: seq<DataAttr>, b: seq<DataAttr>)
    ensures SegmentSelector(a + b) == SegmentSelector(a) + SegmentSelector(b)
  {
    var sa := seq(|a|, j requires 0 <= j < |a| => DataAttrSelector(a[j]));
    var sb := seq(|b|, j requires 0 <= j < |b| => DataAttrSelector(b[j]));
    var ab := a + b;
    assert seq(|ab|, j requires 0 <= j < |ab| => DataAttrSelector(ab[j])) == sa + sb;
    JoinNoSeparatorAppend(sa, sb);
  }

  /** No attribute of the segment holds a space in its key or its value. */
  predicate SpaceFree(segment: seq<DataAttr>) {
    forall j :: 0 <= j < |segment| ==> ' ' !in segment[j].key && ' ' !in segment[j].value
  }

  /** A segment without spaces in its keys and values has a selector without spaces. */
  lemma {:induction false} SegmentSelectorSpaceFree(segment: seq<DataAttr>)
    requires SpaceFree(segment)
    ensures ' ' !in SegmentSelector(segment)
    decreases |segment|
  {
    if |segment| > 0 {
      SegmentSelectorAppend([segment[0]], segment[1..]);
      assert [segment[0]] + segment[1..] == segment;
      SegmentSelectorSpaceFree(segment[1..]);
      var a := segment[0];
      assert DataAttrSelector(a) == "[data-" + a.key + "=\"" + a.value + "\"]";
    }
  }

  /** The selector of each segment of a findNode path, in order. */
  function SegmentSelectors(path: seq<seq<DataAttr>>): (r: seq<string>)
    ensures |r| == |path| && forall k :: 0 <= k < |path| ==> r[k] == SegmentSelector(path[k])
  {
    seq(|path|, k requires 0 <= k < |path| => SegmentSelector(path[k]))
  }

  /** findNode: the segments' selectors joined by spaces, or None when no segment holds an
      attribute, since the selector is then blank and querySelector rejects it with a
      SyntaxError. */
  function FindNode(path: seq<seq<DataAttr>>): (selector: Option<string>)
    ensures selector.None? <==> forall k :: 0 <= k < |path| ==> path[k] == []
    ensures |path| == 1 && path[0] != [] ==> selector == Some(SegmentSelector(path[0]))
  {
    if forall k :: 0 <= k < |path| ==> path[k] == [] then None
    else Some(Join(SegmentSelectors(path), " "))
  }

  /** The findNode selector is the segments' selectors separated by single spaces: splitting
      it on ' ' gives them back, one per segment, when no key or value holds a space. */
  lemma FindNodeSegments(path: seq<seq<DataAttr>>)
    requires FindNode(path).Some?
    requires forall k :: 0 <= k < |path| ==> SpaceFree(path[k])
    ensures Split(FindNode(path).value, ' ') == SegmentSelectors(path)
  {
    var segs := SegmentSelectors(path);
    forall k | 0 <= k < |segs| ensures ' ' !in segs[k] {
      SegmentSelectorSpaceFree(path[k]);
    }
    SplitJoin(segs, ' ');
  }

  /** findNode generalises getElements: one "element" attribute per segment gives the same
      selector, and the same SyntaxError for an empty path. */
  lemma FindNodeOfElements(names: seq<string>)
    ensures FindNode(seq(|names|, k requires 0 <= k < |names| => [DataAttr("element", names[k])]))
            == GetElements(Segments(names))
  {
    var path := seq(|names|, k requires 0 <= k < |names| => [DataAttr("element", names[k])]);
    var segs := SegmentSelectors(path);
    forall k | 0 <= k < |names| ensures segs[k] == ElementAttrs(names)[k] {
      assert |path[k]| == 1;
    }
    assert segs == ElementAttrs(names);
    if |names| > 0 {
      assert path[0] != [];
    }
  }

  // ---------------------------------------------------------------------------------------
  // buildPresentableJson

  /** The presentable form of a value: a text, or a table of keyed rows. */
  datatype Presentable = Text(text: string) | Table(rows: seq<Row>)
  datatype Row = Row(key: string, value: Presentable)

  const NotRepresentable := "Not representable: "

  /** buildPresentableJson: strings as they are, numbers and booleans as String(x), null as
      'NULL', arrays as rows keyed by index, objects as rows keyed by property, and anything
      else as 'Not representable: ' and its type. */
  function BuildPresentableJson(v: Js): (r: Presentable)
    ensures r.Table? <==> v.Arr? || v.Obj?
    ensures v.Arr? ==> |r.rows| == |v.items| && forall k :: 0 <= k < |v.items| ==> r.rows[k].key == IntToString(k)
    ensures v.Obj? ==> |r.rows| == |v.props| && forall k :: 0 <= k < |v.props| ==> r.rows[k].key == v.props[k].key
    ensures v.Undefined? || v.Func? ==> r == Text(NotRepresentable + TypeOf(v))
    ensures v.Bool? ==> r == Text(if v.b then "true" else "false")
    ensures v.Null? ==> r == Text("NULL")
    decreases v
  {
    match v
    case Str(s) => Text(s)
    case Num(n) => Text(IntToString(n))
    case Bool(b) => Text(if b then "true" else "false")
    case Null => Text("NULL")
    case Arr(items) =>
      Table(seq(|items|, k requires 0 <= k < |items| => Row(IntToString(k), BuildPresentableJson(items[k]))))
    case Obj(props) =>
      Table(seq(|props|, k requires 0 <= k < |props| => Row(props[k].key, BuildPresentableJson(props[k].value))))
    case Undefined => Text(NotRepresentable + "undefined")
    case Func => Text(NotRepresentable + "function")
  }

  /** Reading a table back: the value's rows are those of its elements (arrays) or property
      values (objects), in order, so the presentable form of a row's value is that of the
      element it came from. */
  lemma PresentableRows(v: Js, k: nat)
    requires (v.Arr? && k < |v.items|) || (v.Obj? && k < |v.props|)
    ensures BuildPresentableJson(v).rows[k].value ==
            BuildPresentableJson(if v.Arr? then v.items[k] else v.props[k].value)
  {
  }

  /** Scalars are shown as single texts, with no table; a table's leaves are scalars of the
      value, reached through the rows. */
  lemma PresentableScalar(v: Js)
    requires !v.Arr? && !v.Obj?
    ensures BuildPresentableJson(v).Text?
    ensures v.Str? ==> BuildPresentableJson(v).text == v.s
    ensures v.Num? ==> ParseInt(BuildPresentableJson(v).text) == v.n
  {
    if v.Num? {
      IntToStringRoundTrip(v.n);
    }
  }

  // ---------------------------------------------------------------------------------------
  // buildErrorStacktrace

  /** The non-empty strings of lines, in order. */
  function NonEmptyLines(lines: seq<string>): (r: seq<string>)
    ensures forall k :: 0 <= k < |r| ==> r[k] != "" && r[k] in lines
    ensures (forall k :: 0 <= k < |lines| ==> lines[k] != "") ==> r == lines
    ensures |lines| == 1 ==> r == (if lines[0] == "" then [] else lines)
  {
    if |lines| == 0 then []
    else if lines[0] == "" then NonEmptyLines(lines[1..])
    else [lines[0]] + NonEmptyLines(lines[1..])
  }

  /** Filtering keeps the order of the lines: the non-empty lines of a concatenation are those
      of its first part followed by those of its second. */
  lemma {:induction false} NonEmptyLinesAppend(a: seq<string>, b: seq<string>)
    ensures NonEmptyLines(a + b) == NonEmptyLines(a) + NonEmptyLines(b)
    decreases |a|
  {
    if |a| > 0 {
      assert (a + b)[1..] == a[1..] + b;
      NonEmptyLinesAppend(a[1..], b);
      ConcatAssoc([a[0]], NonEmptyLines(a[1..]), NonEmptyLines(b));
    } else {
      assert a + b == b;
    }
  }

  /** buildErrorStacktrace: the stack's lines, without the empty ones, each html-encoded. */
  function BuildErrorStacktrace(stack: string): (r: seq<string>)
    ensures |r| == |NonEmptyLines(Split(stack, '\n'))|
    ensures forall k :: 0 <= k < |r| ==> r[k] == HtmlEncode(NonEmptyLines(Split(stack, '\n'))[k])
  {
    var lines := NonEmptyLines(Split(stack, '\n'));
    seq(|lines|, k requires 0 <= k < |lines| => HtmlEncode(lines[k]))
  }

  /** No part of a split holds a character the string does not. */
  lemma {:induction false} SplitChars(s: string, c: char, k: nat, ch: char)
    requires k < |Split(s, c)| && ch in Split(s, c)[k]
    ensures ch in s
    decreases |s|
  {
    if |s| > 0 {
      var rest := Split(s[1..], c);
      if s[0] == c {
        assert Split(s, c)[k] == rest[k - 1];
        SplitChars(s[1..], c, k - 1, ch);
      } else if k == 0 {
        if ch != s[0] {
          assert ch in rest[0];
          SplitChars(s[1..], c, 0, ch);
        }
      } else {
        assert Split(s, c)[k] == rest[k];
        SplitChars(s[1..], c, k, ch);
      }
    }
  }

  /** A string that does not end with the separator and never holds two separators in a row
      splits into parts that are non-empty, except perhaps the first. */
  lemma {:induction false} SplitTailNonEmpty(s: string, c: char)
    requires |s| > 0 ==> s[|s| - 1] != c
    requires forall k :: 0 <= k < |s| - 1 ==> !(s[k] == c && s[k + 1] == c)
    ensures forall k :: 1 <= k < |Split(s, c)| ==> Split(s, c)[k] != ""
    decreases |s|
  {
    if |s| > 0 {
      var rest := Split(s[1..], c);
      SplitTailNonEmpty(s[1..], c);
      if s[0] == c {
        assert |s| >= 2 && s[1] != c;
        assert rest[0] != "" by {
          assert Split(s[1..], c) == [[s[1]] + Split(s[2..], c)[0]] + Split(s[2..], c)[1..] by {
            assert s[1..][0] == s[1] && s[1..][1..] == s[2..];
          }
        }
      }
    }
  }

  /** A stack trace with no empty line and no character that needs escaping is shown line
      for line: joining the shown lines with newlines gives the stack back. */
  lemma StacktraceOfPlainStack(stack: string)
    requires |stack| > 0 && stack[0] != '\n' && stack[|stack| - 1] != '\n'
    requires forall k :: 0 <= k < |stack| - 1 ==> !(stack[k] == '\n' && stack[k + 1] == '\n')
    requires '&' !in stack && '\'' !in stack && '"' !in stack && '<' !in stack && '>' !in stack
    ensures Join(BuildErrorStacktrace(stack), "\n") == stack
  {
    var parts := Split(stack, '\n');
    SplitTailNonEmpty(stack, '\n');
    assert parts[0] != "" by {
      assert parts[0] == [stack[0]] + Split(stack[1..], '\n')[0];
    }
    assert NonEmptyLines(parts) == parts;
    forall k | 0 <= k < |parts| ensures HtmlEncode(parts[k]) == parts[k] {
      forall ch | ch in parts[k] ensures ch in stack {
        SplitChars(stack, '\n', k, ch);
      }
      HtmlEncodeUnchanged(parts[k]);
    }
    assert BuildErrorStacktrace(stack) == parts;
    JoinSplit(stack, '\n');
  }

  // ---------------------------------------------------------------------------------------
  // getUserSetting and dialogs

  /** getUserSetting: the user's setting for key, or the default when there are no settings
      or the setting is undefined. */
  function GetUserSetting(settings: Js, key: string, default: Js): (r: Js)
    ensures !Truthy(settings) || Get(settings, key) == Undefined ==> r == default
    ensures Truthy(settings) && Get(settings, key) != Undefined ==> r == Get(settings, key)
    ensures r != default ==> settings.Obj? && exists k :: 0 <= k < |settings.props| && settings.props[k].key == key && settings.props[k].value == r
  {
    if !Truthy(settings) then default
    else
      var setting := Get(settings, key);
      if setting == Undefined then default else setting
  }

  /** A button the caller asks renderDialog for: its type (empty for none), action and caption. */
  datatype DialogButton = DialogButton(kind: string, action: string, caption: string)

  /** A rendered footer button: its class, its data-element, its caption and whether it
      dismisses the dialog. */
  datatype FooterButton = FooterButton(cssClass: string, dataElement: string, caption: string, dismisses: bool)

  /** The footer of renderDialog: the caller's buttons in order, then the cancel button. */
  function DialogFooter(buttons: seq<DialogButton>, cancelLabel: string): (r: seq<FooterButton>)
    ensures |r| == |buttons| + 1
    ensures r[|buttons|] == FooterButton("btn btn-default", "cancel", cancelLabel, true)
    ensures forall k :: 0 <= k < |buttons| ==>
              r[k].dataElement == buttons[k].action && r[k].caption == buttons[k].caption && !r[k].dismisses &&
              r[k].cssClass == "btn btn-" + (if buttons[k].kind == "" then "default" else buttons[k].kind)
  {
    seq(|buttons|, k requires 0 <= k < |buttons| =>
          FooterButton("btn btn-" + (if buttons[k].kind == "" then "default" else buttons[k].kind),
                       buttons[k].action, buttons[k].caption, false))
    + [FooterButton("btn btn-default", "cancel", cancelLabel, true)]
  }
}
