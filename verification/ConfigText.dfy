/** FileUtils: the quoting of a field and the splitting of a line into fields. */
module ConfigText {

  // ------------------------------------------------------------------- quoting

  /** `replace("\"", "\"\"")`. */
  function Double(s: string): string {
    if s == "" then "" else (if s[0] == '"' then "\"\"" else [s[0]]) + Double(s[1..])
  }

  /** `replace("\n", "\\n")`. */
  function Escape(s: string): string {
    if s == "" then "" else (if s[0] == '\n' then "\\n" else [s[0]]) + Escape(s[1..])
  }

  /** Fields that are written between quotes. */
  predicate NeedsQuotes(s: string) { '"' in s || ',' in s }

  function QuotedString(s: string): string {
    var doubled := Double(s);
    Escape(if NeedsQuotes(doubled) then "\"" + doubled + "\"" else doubled)
  }

  // ----------------------------------------------------------------- splitting

  predicate IsSpace(c: char) { c in {' ', '\t', '\n', '\r', 11 as char, 12 as char} }

  function TrimLeft(s: string): string {
    if s != "" && IsSpace(s[0]) then TrimLeft(s[1..]) else s
  }

  function TrimRight(s: string): string {
    if s != "" && IsSpace(s[|s| - 1]) then TrimRight(s[..|s| - 1]) else s
  }

  /** `replace("\"\"", "\"")`, from left to right. */
  function UnDouble(s: string): string {
    if s == "" then ""
    else if |s| > 1 && s[0] == '"' && s[1] == '"' then "\"" + UnDouble(s[2..])
    else [s[0]] + UnDouble(s[1..])
  }

  /** `replace("\\n", "\n")`. */
  function Unescape(s: string): string {
    if s == "" then ""
    else if |s| > 1 && s[0] == '\\' && s[1] == 'n' then "\n" + Unescape(s[2..])
    else [s[0]] + Unescape(s[1..])
  }

  function Strip(item: string): string {
    if item != "" && item[0] == '"' && item[|item| - 1] == '"' then
      (if |item| > 2 then item[1..|item| - 1] else "")
    else item
  }

  /** The field for the characters between two separators. */
  function Item(raw: string): string {
    Unescape(UnDouble(Strip(TrimRight(TrimLeft(raw)))))
  }

  /** The rest of the line, the characters of the current field so far, and
      whether the scan is between quotes. */
  function Split(s: string, raw: string, quoted: bool): (items: seq<string>)
    ensures items != []
    decreases |s|
  {
    if s == "" then [Item(raw)]
    else if s[0] == ',' && !quoted then [Item(raw)] + Split(s[1..], "", false)
    else if s[0] == '"' && !quoted then Split(s[1..], raw + "\"", true)
    else if s[0] == '"' && (|s| < 2 || s[1] != '"') then Split(s[1..], raw + "\"", false)
    else if s[0] == '"' then Split(s[2..], raw + "\"\"", true)
    else Split(s[1..], raw + [s[0]], quoted)
  }

  function Items(line: string): (items: seq<string>)
    ensures items != []
  {
    Split(line, "", false)
  }

  lemma ItemEmpty()
    ensures Item("") == ""
  {
  }

  lemma SplitNext(s: string, raw: string, quoted: bool)
    ensures Split(s, raw, quoted) ==
            if s == "" then [Item(raw)]
            else if s[0] == ',' && !quoted then [Item(raw)] + Split(s[1..], "", false)
            else if s[0] == '"' && !quoted then Split(s[1..], raw + "\"", true)
            else if s[0] == '"' && (|s| < 2 || s[1] != '"') then Split(s[1..], raw + "\"", false)
            else if s[0] == '"' then Split(s[2..], raw + "\"\"", true)
            else Split(s[1..], raw + [s[0]], quoted)
  {
  }

  /** The same, for the place that the loop has come to. */
  lemma SplitAt(str: string, index: nat, i: nat, quoted: bool)
    requires index <= i <= |str|
    ensures Split(str[i..], str[index..i], quoted) ==
            if i == |str| then [Item(str[index..i])]
            else if str[i] == ',' && !quoted then [Item(str[index..i])] + Split(str[i + 1..], str[i + 1..i + 1], false)
            else if str[i] == '"' && !quoted then Split(str[i + 1..], str[index..i + 1], true)
            else if str[i] == '"' && (i + 1 >= |str| || str[i + 1] != '"') then Split(str[i + 1..], str[index..i + 1], false)
            else if str[i] == '"' then Split(str[i + 2..], str[index..i + 2], true)
            else Split(str[i + 1..], str[index..i + 1], quoted)
  {
    hide Split, Item;
    SplitNext(str[i..], str[index..i], quoted);
    if i < |str| {
      assert str[i..][1..] == str[i + 1..] && str[i + 1..i + 1] == "";
      assert str[index..i + 1] == str[index..i] + [str[i]];
      if i + 1 < |str| {
        assert str[i..][2..] == str[i + 2..];
        assert str[index..i + 2] == str[index..i] + [str[i], str[i + 1]];
      }
    }
  }

  method GetItemsFromQuotedString(str: string) returns (items: seq<string>)
    ensures items == Items(str)
  {
    hide Split, Item;
    items := [];
    var index, i, quoted := 0, 0, false;
    assert str[0..] == str && str[0..0] == "";
    while i <= |str|
      invariant 0 <= index <= |str| + 1 && index <= i <= |str| + 1
      invariant i <= |str| ==> items + Split(str[i..], str[index..i], quoted) == Items(str)
      invariant i > |str| ==> items == Items(str)
      decreases |str| + 1 - i
    {
      SplitAt(str, index, i, quoted);
      if i >= |str| || (str[i] == ',' && !quoted) {
        var itemLen := i - index;
        ghost var before := items;
        if itemLen > 0 {
          items := items + [ItemText(str[index..i])];
        } else {
          ItemEmpty();
          assert str[index..i] == "";
          items := items + [""];
        }
        assert items == before + [Item(str[index..i])];
        index := i + 1;
      } else if str[i] == '"' {
        if !quoted {
          quoted := true;
        } else if i + 1 >= |str| || str[i + 1] != '"' {
          quoted := false;
        } else {
          i := i + 1;
        }
      }
      i := i + 1;
    }
  }

  /** The steps on one item: trim, remove quotes, fix quotes, fix newlines. */
  function ItemText(raw: string): (item: string)
    ensures item == Item(raw)
  {
    var item := TrimRight(TrimLeft(raw));
    var item := if item != "" && item[0] == '"' && item[|item| - 1] == '"' then
                  (if |item| - 2 > 0 then item[1..|item| - 1] else "")
                else item;
    Unescape(UnDouble(item))
  }

  // ------------------------------------------------------- quoting and splitting

  /** A backslash followed by the letter n, which reads back as a newline. */
  predicate HasEscape(s: string) {
    exists i :: 0 <= i < |s| - 1 && s[i] == '\\' && s[i + 1] == 'n'
  }

  /** A blank, other than a newline, at either end. */
  predicate HasOuterBlank(s: string) {
    s != "" && ((IsSpace(s[0]) && s[0] != '\n') || (IsSpace(s[|s| - 1]) && s[|s| - 1] != '\n'))
  }

  /** What a file can hold in a field. */
  predicate Storable(s: string) {
    !HasEscape(s) && (NeedsQuotes(s) || !HasOuterBlank(s))
  }

  lemma DoubleCons(c: char, s: string)
    ensures Double([c] + s) == (if c == '"' then "\"\"" else [c]) + Double(s)
  {
    assert ([c] + s)[1..] == s;
  }

  lemma EscapeCons(c: char, s: string)
    ensures Escape([c] + s) == (if c == '\n' then "\\n" else [c]) + Escape(s)
  {
    assert ([c] + s)[1..] == s;
  }

  lemma UnDoubleCons(c: char, s: string)
    requires c != '"'
    ensures UnDouble([c] + s) == [c] + UnDouble(s)
  {
    assert ([c] + s)[1..] == s;
  }

  lemma UnDoublePair(s: string)
    ensures UnDouble("\"\"" + s) == "\"" + UnDouble(s)
  {
    assert ("\"\"" + s)[2..] == s;
  }

  lemma {:induction false} UnDoubleEscapeDouble(s: string)
    ensures UnDouble(Escape(Double(s))) == Escape(s)
  {
    if s == "" {
      assert Double(s) == "" && Escape("") == "" && UnDouble("") == "";
    } else {
      UnDoubleEscapeDouble(s[1..]);
      assert s == [s[0]] + s[1..];
      HeadUnDoubled(s[0], s[1..]);
    }
  }

  lemma HeadUnDoubled(c: char, s: string)
    requires UnDouble(Escape(Double(s))) == Escape(s)
    ensures UnDouble(Escape(Double([c] + s))) == Escape([c] + s)
  {
    hide Double, Escape, UnDouble;
    var d, e := Double(s), Escape(Double(s));
    DoubleCons(c, s);
    EscapeCons(c, s);
    if c == '"' {
      assert "\"\"" + d == ['"'] + (['"'] + d);
      EscapeCons('"', ['"'] + d);
      EscapeCons('"', d);
      assert ['"'] + (['"'] + e) == "\"\"" + e;
      UnDoublePair(e);
    } else if c == '\n' {
      EscapeCons(c, d);
      assert "\\n" + e == ['\\'] + (['n'] + e);
      UnDoubleCons('\\', ['n'] + e);
      UnDoubleCons('n', e);
      assert ['\\'] + (['n'] + Escape(s)) == "\\n" + Escape(s);
    } else {
      EscapeCons(c, d);
      UnDoubleCons(c, e);
    }
  }

  /** Reading back gives at most the field, and exactly it when the field held no
      escape of its own. */
  lemma {:induction false} UnescapeEscape(s: string)
    ensures var r := Unescape(Escape(s)); if HasEscape(s) then |r| < |s| else r == s
    decreases |s|
  {
    if s != "" {
      var t := s[1..];
      var e := Escape(t);
      UnescapeEscape(t);
      if s[0] == '\n' {
        assert Escape(s) == "\\n" + e && ("\\n" + e)[2..] == e;
        TailEscape(s);
      } else if |s| > 1 && s[0] == '\\' && s[1] == 'n' {
        var u := Escape(s[2..]);
        UnescapeEscape(s[2..]);
        assert t[1..] == s[2..];
        assert Escape(s) == ['\\'] + (['n'] + u) && Escape(s)[2..] == u;
        assert HasEscape(s);
      } else {
        assert Escape(s) == [s[0]] + e && Escape(s)[1..] == e;
        assert |s| > 1 ==> Escape(s)[1] == (if s[1] == '\n' then '\\' else s[1]);
        TailEscape(s);
      }
    }
  }

  lemma TailEscape(s: string)
    requires s != "" && !(|s| > 1 && s[0] == '\\' && s[1] == 'n')
    ensures HasEscape(s) <==> HasEscape(s[1..])
  {
    var t := s[1..];
    if i :| 0 <= i < |t| - 1 && t[i] == '\\' && t[i + 1] == 'n' {
      assert s[i + 1] == '\\' && s[i + 2] == 'n';
    }
    if i :| 0 <= i < |s| - 1 && s[i] == '\\' && s[i + 1] == 'n' {
      assert t[i - 1] == '\\' && t[i] == 'n';
    }
  }

  // ------------------------------------------------ one field between separators

  lemma {:induction false} DoublePlain(s: string)
    requires '"' !in s
    ensures Double(s) == s
  {
    if s != "" {
      DoublePlain(s[1..]);
    }
  }

  lemma {:induction false} DoubleKeeps(s: string)
    ensures NeedsQuotes(Double(s)) <==> NeedsQuotes(s)
    ensures s != "" ==> Double(s) != ""
  {
    if s != "" {
      DoubleKeeps(s[1..]);
      assert s == [s[0]] + s[1..];
      assert s[0] != '"' ==> Double(s) == [s[0]] + Double(s[1..]);
      assert s[0] == '"' ==> Double(s)[0] == '"';
    }
  }

  lemma {:induction false} EscapeAppend(a: string, b: string)
    ensures Escape(a + b) == Escape(a) + Escape(b)
  {
    if a == "" {
      assert a + b == b;
    } else {
      assert (a + b)[1..] == a[1..] + b;
      EscapeAppend(a[1..], b);
    }
  }

  lemma QuotedForms(f: string)
    ensures QuotedString(f) == if NeedsQuotes(f) then "\"" + Escape(Double(f)) + "\"" else Escape(f)
  {
    DoubleKeeps(f);
    if NeedsQuotes(f) {
      EscapeAppend("\"" + Double(f), "\"");
      EscapeAppend("\"", Double(f));
      assert Escape("\"") == "\"" + Escape("") == "\"";
    } else {
      DoublePlain(f);
    }
  }

  /** How a character appears between quotes. */
  function Shown(c: char): string {
    if c == '"' then "\"\"" else if c == '\n' then "\\n" else [c]
  }

  lemma EscapeOne(c: char)
    ensures Escape(if c == '"' then "\"\"" else [c]) == Shown(c)
  {
    if c == '"' {
      assert "\"\""[1..] == "\"" && "\""[1..] == "";
    } else {
      assert [c][1..] == "";
    }
  }

  lemma EscapedHead(f: string)
    requires f != ""
    ensures Escape(Double(f)) == Shown(f[0]) + Escape(Double(f[1..]))
  {
    hide Escape, Shown;
    EscapeOne(f[0]);
    EscapeAppend(if f[0] == '"' then "\"\"" else [f[0]], Double(f[1..]));
  }

  lemma ScanShown(c: char, x: string, raw: string)
    ensures Split(Shown(c) + x, raw, true) == Split(x, raw + Shown(c), true)
  {
    hide Item;
    var s := Shown(c) + x;
    assert s[|Shown(c)|..] == x;
    if c == '\n' {
      assert s[1..] == "n" + x && s[1..][1..] == x;
      assert raw + "\\" + "n" == raw + Shown(c);
    }
  }

  /** Between quotes the scan reaches the closing quote of the field. */
  lemma {:induction false} ScanQuoted(f: string, rest: string, raw: string)
    requires rest == "" || rest[0] == ','
    ensures Split(Escape(Double(f)) + "\"" + rest, raw, true) == Split(rest, raw + Escape(Double(f)) + "\"", false)
    decreases |f|
  {
    if f == "" {
      assert "" + "\"" + rest == "\"" + rest && ("\"" + rest)[1..] == rest;
      assert raw + "" + "\"" == raw + "\"";
    } else {
      EscapedHead(f);
      ScanQuotedNext(f, rest, raw);
      ScanQuoted(f[1..], rest, raw + Shown(f[0]));
    }
  }

  lemma ScanQuotedNext(f: string, rest: string, raw: string)
    requires f != ""
    ensures var e := Escape(Double(f[1..]));
            && Split(Escape(Double(f)) + "\"" + rest, raw, true) == Split(e + "\"" + rest, raw + Shown(f[0]), true)
            && (raw + Shown(f[0])) + e + "\"" == raw + Escape(Double(f)) + "\""
  {
    hide Split, Shown, Escape, Double;
    EscapedHead(f);
    var e := Escape(Double(f[1..]));
    ScanShown(f[0], e + "\"" + rest, raw);
    assert Escape(Double(f)) + "\"" + rest == Shown(f[0]) + (e + "\"" + rest);
  }

  lemma {:induction false} ScanPlain(x: string, rest: string, raw: string)
    requires ',' !in x && '"' !in x
    ensures Split(x + rest, raw, false) == Split(rest, raw + x, false)
  {
    if x == "" {
      assert x + rest == rest && raw + x == raw;
    } else {
      assert (x + rest)[1..] == x[1..] + rest && x[0] in x;
      ScanPlain(x[1..], rest, raw + [x[0]]);
      assert (raw + [x[0]]) + x[1..] == raw + x;
    }
  }

  lemma {:induction false} EscapePlain(f: string)
    requires !NeedsQuotes(f)
    ensures ',' !in Escape(f) && '"' !in Escape(f)
  {
    if f != "" {
      assert f[0] in f;
      EscapePlain(f[1..]);
    }
  }

  /** The scan takes exactly the written field. */
  lemma ScanField(f: string, rest: string)
    requires rest == "" || rest[0] == ','
    ensures Split(QuotedString(f) + rest, "", false) == Split(rest, QuotedString(f), false)
  {
    hide Escape, Double, QuotedString, Split, Item;
    QuotedForms(f);
    if NeedsQuotes(f) {
      ScanQuotedField(f, rest);
    } else {
      EscapePlain(f);
      ScanPlain(Escape(f), rest, "");
      assert "" + Escape(f) == Escape(f);
    }
  }

  lemma ScanQuotedField(f: string, rest: string)
    requires rest == "" || rest[0] == ','
    requires NeedsQuotes(f) && QuotedString(f) == "\"" + Escape(Double(f)) + "\""
    ensures Split(QuotedString(f) + rest, "", false) == Split(rest, QuotedString(f), false)
  {
    hide Escape, Double, QuotedString, Split, Item;
    var inner := Escape(Double(f)) + "\"" + rest;
    SplitNext("\"" + inner, "", false);
    assert QuotedString(f) + rest == "\"" + inner && ("\"" + inner)[1..] == inner;
    ScanQuoted(f, rest, "\"");
    assert "" + "\"" == "\"";
  }

  /** What a field becomes when it is written and read. */
  function ReadBack(f: string): string {
    Item(QuotedString(f))
  }

  function Join(fields: seq<string>): string {
    if fields == [] then ""
    else if |fields| == 1 then QuotedString(fields[0])
    else QuotedString(fields[0]) + ("," + Join(fields[1..]))
  }

  /** Whatever the fields hold, the line splits at the commas that joined them. */
  lemma {:induction false} ItemsOfJoin(fields: seq<string>)
    requires fields != []
    ensures var items := Items(Join(fields));
            |items| == |fields| && forall i :: 0 <= i < |fields| ==> items[i] == ReadBack(fields[i])
    decreases |fields|
  {
    hide Item, QuotedString;
    if |fields| == 1 {
      ScanField(fields[0], "");
      assert QuotedString(fields[0]) + "" == QuotedString(fields[0]);
    } else {
      var rest := "," + Join(fields[1..]);
      ScanField(fields[0], rest);
      assert rest[1..] == Join(fields[1..]);
      ItemsOfJoin(fields[1..]);
      assert Items(Join(fields)) == [ReadBack(fields[0])] + Items(Join(fields[1..]));
    }
  }

  // ---------------------------------------------------- which fields come back

  /** Blanks at either end of an unquoted field are lost. */
  lemma {:induction false} TrimEnds(x: string)
    ensures x != "" && IsSpace(x[0]) ==> Item(x) == Item(x[1..])
    ensures x != "" && IsSpace(x[|x| - 1]) ==> Item(x) == Item(x[..|x| - 1])
    ensures x == "" || (!IsSpace(x[0]) && !IsSpace(x[|x| - 1])) ==> TrimRight(TrimLeft(x)) == x
  {
    if x != "" && IsSpace(x[|x| - 1]) {
      TrimLast(x);
    }
  }

  lemma {:induction false} TrimLast(x: string)
    requires x != "" && IsSpace(x[|x| - 1])
    ensures TrimRight(TrimLeft(x)) == TrimRight(TrimLeft(x[..|x| - 1]))
    decreases |x|
  {
    if |x| > 1 && IsSpace(x[0]) {
      TrimLast(x[1..]);
      assert x[1..][..|x| - 2] == x[..|x| - 1][1..];
    } else if |x| == 1 {
      assert x[..0] == "" && x[1..] == "";
    } else {
      assert TrimLeft(x[..|x| - 1]) == x[..|x| - 1];
    }
  }

  lemma {:induction false} UnDoublePlain(s: string)
    requires '"' !in s
    ensures UnDouble(s) == s
  {
    if s != "" {
      UnDoublePlain(s[1..]);
    }
  }

  /** An unquoted field never comes back longer, and exactly when it could be
      stored it comes back as it was. */
  lemma {:induction false} PlainReadBack(f: string)
    requires !NeedsQuotes(f)
    ensures |Item(Escape(f))| <= |f|
    ensures HasOuterBlank(f) ==> |Item(Escape(f))| < |f|
    ensures !HasOuterBlank(f) ==> Item(Escape(f)) == Unescape(Escape(f))
    decreases |f|
  {
    hide Escape, Item, IsSpace, Unescape;
    if f != "" && IsSpace(f[0]) && f[0] != '\n' {
      FrontBlankLost(f);
      assert forall c :: c in f[1..] ==> c in f;
      PlainReadBack(f[1..]);
    } else if f != "" && IsSpace(f[|f| - 1]) && f[|f| - 1] != '\n' {
      BackBlankLost(f);
      assert forall c :: c in f[..|f| - 1] ==> c in f;
      PlainReadBack(f[..|f| - 1]);
    } else {
      NoBlankLost(f);
      UnescapeEscape(f);
    }
  }

  lemma FrontBlankLost(f: string)
    requires f != "" && IsSpace(f[0]) && f[0] != '\n'
    ensures Item(Escape(f)) == Item(Escape(f[1..]))
  {
    var x := Escape(f);
    TrimEnds(x);
    assert x == [f[0]] + Escape(f[1..]) && x[1..] == Escape(f[1..]);
  }

  lemma BackBlankLost(f: string)
    requires f != "" && IsSpace(f[|f| - 1]) && f[|f| - 1] != '\n'
    ensures Item(Escape(f)) == Item(Escape(f[..|f| - 1]))
  {
    hide Item, Escape;
    var k := |f| - 1;
    var x := Escape(f);
    TrimEnds(x);
    assert f == f[..k] + [f[k]];
    EscapeAppend(f[..k], [f[k]]);
    EscapeCons(f[k], "");
    EscapeEmpty();
    assert [f[k]] + "" == [f[k]];
    assert x[..|x| - 1] == Escape(f[..k]);
  }

  lemma EscapeEmpty()
    ensures Escape("") == ""
  {
  }

  lemma NoBlankLost(f: string)
    requires !NeedsQuotes(f) && !HasOuterBlank(f)
    ensures Item(Escape(f)) == Unescape(Escape(f))
  {
    hide Escape, Unescape, IsSpace, UnDouble, TrimLeft, TrimRight;
    var x := Escape(f);
    TrimEnds(x);
    EscapedEnds(f);
    EscapePlain(f);
    UnDoublePlain(x);
    assert x != "" ==> x[0] in x;
  }

  lemma EscapedEnds(f: string)
    requires !HasOuterBlank(f)
    ensures var x := Escape(f); x == "" || (!IsSpace(x[0]) && !IsSpace(x[|x| - 1]))
  {
    if f != "" {
      var k := |f| - 1;
      assert f == f[..k] + [f[k]];
      EscapeAppend(f[..k], [f[k]]);
      assert Escape([f[k]]) == (if f[k] == '\n' then "\\n" else [f[k]]) + Escape("");
    }
  }

  /** A field comes back exactly when it can be stored: it holds no backslash
      followed by n, and it is quoted or has no blank at either end. */
  lemma FieldRoundTripIff(f: string)
    ensures ReadBack(f) == f <==> Storable(f)
  {
    hide Escape, Double, Unescape, UnDouble, IsSpace;
    QuotedForms(f);
    UnescapeEscape(f);
    if NeedsQuotes(f) {
      QuotedReadBack(f);
    } else {
      PlainReadBack(f);
    }
  }

  lemma QuotedReadBack(f: string)
    requires NeedsQuotes(f)
    ensures Item("\"" + Escape(Double(f)) + "\"") == Unescape(Escape(f))
  {
    hide Escape, Double, Unescape, UnDouble;
    var body := Escape(Double(f));
    var raw := "\"" + body + "\"";
    assert TrimLeft(raw) == raw && TrimRight(raw) == raw;
    NotEmpty(f);
    assert Strip(raw) == body;
    UnDoubleEscapeDouble(f);
  }

  lemma NotEmpty(f: string)
    requires f != ""
    ensures Escape(Double(f)) != ""
  {
    EscapedHead(f);
  }

  /** A line of fields splits into the fields that were joined exactly when
      every one of them can be stored. */
  lemma LineRoundTripIff(fields: seq<string>)
    requires fields != []
    ensures Items(Join(fields)) == fields <==> forall i :: 0 <= i < |fields| ==> Storable(fields[i])
  {
    hide Items, Join, Storable, ReadBack;
    ItemsOfJoin(fields);
    forall i | 0 <= i < |fields|
      ensures ReadBack(fields[i]) == fields[i] <==> Storable(fields[i])
    {
      FieldRoundTripIff(fields[i]);
    }
  }
}
