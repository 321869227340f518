/**
 * `Search<TControlPattern>`: a restricted search pattern. It keeps a bag of
 * property constraints, renders them as text, and builds the regular
 * expression alternatives that driver patterns understand. The underlying
 * driver pattern is modelled as the constraints themselves: one value per
 * property name, kept in the order the names were first added.
 */
module SearchPatterns {
  import opened Wrappers
  import opened Seqs

  /** A constraint's value: the kinds of objects the patterns hold. */
  datatype Value = Bool(b: bool) | Int(i: int) | Str(s: string)

  /** A property name with its required value. */
  type Item = (string, Value)

  /** `And(additionalSearch)`: every item of the other pattern added in turn. */
  function PutAll<K(==), V>(items: seq<(K, V)>, more: seq<(K, V)>): seq<(K, V)>
    decreases |more|
  {
    if more == [] then items else PutAll(Put(items, more[0].0, more[0].1), more[1..])
  }

  /** After adding another pattern its names have its values and every other name keeps its value. */
  lemma {:induction false} PutAllSpec<K, V>(items: seq<(K, V)>, more: seq<(K, V)>, k: K)
    requires NoDuplicates(Keys(items)) && NoDuplicates(Keys(more))
    ensures NoDuplicates(Keys(PutAll(items, more)))
    ensures Get(PutAll(items, more), k) == if k in Keys(more) then Get(more, k) else Get(items, k)
    decreases |more|
  {
    if more != [] {
      var rest := more[1..];
      assert Keys(more) == [more[0].0] + Keys(rest);
      assert NoDuplicates(Keys(rest)) by {
        assert forall i :: 0 <= i < |rest| ==> Keys(rest)[i] == Keys(more)[i + 1];
      }
      assert more[0].0 !in Keys(rest);
      PutKeys(items, more[0].0, more[0].1);
      PutGet(items, more[0].0, more[0].1, k);
      PutAllSpec(Put(items, more[0].0, more[0].1), rest, k);
    }
  }

  /** `p.Value.ToString()`: .NET's rendering of booleans and integers. */
  function ValueText(v: Value): string
  {
    match v
    case Bool(b) => if b then "True" else "False"
    case Int(i) => if i < 0 then "-" + Decimal(-i) else Decimal(i)
    case Str(s) => s
  }

  function Decimal(n: nat): (r: string)
    ensures |r| > 0
  {
    var d := ['0', '1', '2', '3', '4', '5', '6', '7', '8', '9'][n % 10];
    if n < 10 then [d] else Decimal(n / 10) + [d]
  }

  /** `Split('.').Last()`: the text after the last dot, or all of it when there is none. */
  function LastSegment(s: string): string
  {
    if s == [] then ""
    else if s[|s| - 1] == '.' then ""
    else LastSegment(s[..|s| - 1]) + [s[|s| - 1]]
  }

  /** The last segment is a dot-free suffix of the text, and a dot stands right before it unless it is the whole text. */
  lemma {:induction false} LastSegmentSpec(s: string)
    ensures var r := LastSegment(s);
      '.' !in r && |r| <= |s| && s[|s| - |r|..] == r && (|r| < |s| ==> s[|s| - |r| - 1] == '.')
    decreases |s|
  {
    if s != [] && s[|s| - 1] != '.' {
      var init := s[..|s| - 1];
      LastSegmentSpec(init);
      var r := LastSegment(init);
      assert s[|s| - |r| - 1..] == init[|init| - |r|..] + [s[|s| - 1]];
      if |r| < |init| {
        assert s[|s| - |r| - 2] == init[|init| - |r| - 1];
      }
    }
  }

  /** How `ToString` shows a constraint: class names shortened, control-name keys unified. */
  function Field(p: Item): string
  {
    if p.0 == "ClrFullClassName" then "Class=" + LastSegment(ValueText(p.1))
    else if p.0 == "WinFormsControlName" || p.0 == "WPFControlName" then "ControlName=" + ValueText(p.1)
    else p.0 + "=" + ValueText(p.1)
  }

  /** The fields of the constraints, in order. */
  function Fields(items: seq<Item>): (r: seq<string>)
    ensures |r| == |items| && forall i :: 0 <= i < |items| ==> r[i] == Field(items[i])
  {
    seq(|items|, i requires 0 <= i < |items| => Field(items[i]))
  }

  /** What the `ToString` loop builds from fields: each field followed by the separator of the previous round. */
  function Joined(fs: seq<string>): string
  {
    if fs == [] then ""
    else Joined(fs[..|fs| - 1]) + fs[|fs| - 1] + (if |fs| == 1 then "" else "; ")
  }

  lemma JoinedAppend(fs: seq<string>, f: string)
    ensures Joined(fs + [f]) == Joined(fs) + f + (if fs == [] then "" else "; ")
  {
    assert (fs + [f])[..|fs|] == fs;
  }

  lemma FieldsAppend(items: seq<Item>, i: nat)
    requires i < |items|
    ensures Fields(items[..i + 1]) == Fields(items[..i]) + [Field(items[i])]
  {
  }

  /** One round of the `ToString` loop appends the next field and the separator left by the previous round. */
  lemma JoinedStep(items: seq<Item>, i: nat, result: string, sep: string)
    requires i < |items| && result == Joined(Fields(items[..i])) && sep == if i == 0 then "" else "; "
    ensures result + (Field(items[i]) + sep) == Joined(Fields(items[..i + 1]))
  {
    FieldsAppend(items, i);
    JoinedAppend(Fields(items[..i]), Field(items[i]));
  }

  /** `ToString` of a list of constraints. */
  function Rendered(items: seq<Item>): string
  {
    Joined(Fields(items))
  }

  /** The rendering, read from the front: every field followed by `"; "`. */
  function Trailing(fs: seq<string>): string
  {
    if fs == [] then "" else fs[0] + "; " + Trailing(fs[1..])
  }

  lemma {:induction false} TrailingAppend(fs: seq<string>, f: string)
    ensures Trailing(fs + [f]) == Trailing(fs) + f + "; "
    decreases |fs|
  {
    if fs == [] {
      assert [] + [f] == [f] && [f][1..] == [];
    } else {
      assert (fs + [f])[0] == fs[0] && (fs + [f])[1..] == fs[1..] + [f];
      TrailingAppend(fs[1..], f);
    }
  }

  /** Nothing follows the first field and `"; "` follows each later one. */
  lemma {:induction false} JoinedShape(fs: seq<string>)
    requires fs != []
    ensures Joined(fs) == fs[0] + Trailing(fs[1..])
    decreases |fs|
  {
    if |fs| > 1 {
      var init := fs[..|fs| - 1];
      JoinedShape(init);
      assert init[1..] + [fs[|fs| - 1]] == fs[1..];
      TrailingAppend(init[1..], fs[|fs| - 1]);
    } else {
      assert fs[..0] == [] && fs[1..] == [];
    }
  }

  /** Nothing follows the first constraint and `"; "` follows each later one. */
  lemma RenderedShape(items: seq<Item>)
    requires items != []
    ensures Rendered(items) == Field(items[0]) + Trailing(Fields(items[1..]))
  {
    JoinedShape(Fields(items));
    assert Fields(items)[1..] == Fields(items[1..]);
  }

  /** Three plain constraints render as `a=1b=2; c=3; `. */
  lemma RenderedExample()
    ensures Rendered([("a", Int(1)), ("b", Int(2)), ("c", Int(3))]) == "a=1b=2; c=3; "
  {
    var items := [("a", Int(1)), ("b", Int(2)), ("c", Int(3))];
    assert Decimal(1) == "1" && Decimal(2) == "2" && Decimal(3) == "3";
    assert Field(items[0]) == "a=1" && Field(items[1]) == "b=2" && Field(items[2]) == "c=3";
    assert Fields(items) == ["a=1", "b=2", "c=3"];
    var fs := ["a=1", "b=2", "c=3"];
    assert fs[..2][..1] == ["a=1"] && fs[..2] == ["a=1", "b=2"] && ["a=1"][..0] == [];
    assert Joined(["a=1"]) == "a=1";
    assert Joined(["a=1", "b=2"]) == "a=1b=2; ";
  }

  /** `ToRegexString`'s `Replace(old, new)`: every `c` replaced by `r`. */
  function Replace(s: string, c: char, r: string): string
  {
    if s == [] then "" else (if s[0] == c then r else [s[0]]) + Replace(s[1..], c, r)
  }

  /** `ToRegexString`: `+` replaced by `\+`, then `.` by `\.`. */
  function ToRegexString(text: string): string
  {
    Replace(Replace(text, '+', "\\+"), '.', "\\.")
  }

  /** The escaping of one character: a backslash before `+` and `.`, every other character kept. */
  function EscapeChar(c: char): string
  {
    if c == '+' || c == '.' then ['\\', c] else [c]
  }

  /** The character-by-character escaping, an independent reading of `ToRegexString`. */
  function Escaped(text: string): string
  {
    if text == [] then "" else EscapeChar(text[0]) + Escaped(text[1..])
  }

  lemma {:induction false} ReplaceAppend(a: string, b: string, c: char, r: string)
    ensures Replace(a + b, c, r) == Replace(a, c, r) + Replace(b, c, r)
    decreases |a|
  {
    if a == [] {
      assert a + b == b;
    } else {
      assert (a + b)[0] == a[0] && (a + b)[1..] == a[1..] + b;
      ReplaceAppend(a[1..], b, c, r);
    }
  }

  /** The two chained replacements escape each character on its own. */
  lemma {:induction false} ToRegexStringIsEscaped(text: string)
    ensures ToRegexString(text) == Escaped(text)
    decreases |text|
  {
    if text != [] {
      var c := text[0];
      var once := if c == '+' then "\\+" else [c];
      assert Replace(text, '+', "\\+") == once + Replace(text[1..], '+', "\\+");
      ReplaceAppend(once, Replace(text[1..], '+', "\\+"), '.', "\\.");
      if c == '+' {
        assert Replace(once, '.', "\\.") == "\\+" by {
          assert once[1..][1..] == [];
        }
      } else {
        assert Replace(once, '.', "\\.") == EscapeChar(c) by {
          assert once[1..] == [];
        }
      }
      ToRegexStringIsEscaped(text[1..]);
    }
  }

  /** Removes the backslash in front of each `+` and `.`: the inverse of the escaping. */
  function Unescaped(s: string): string
  {
    if s == [] then ""
    else if |s| >= 2 && s[0] == '\\' && (s[1] == '+' || s[1] == '.') then [s[1]] + Unescaped(s[2..])
    else [s[0]] + Unescaped(s[1..])
  }

  /** Escaping loses nothing: unescaping gives the text back. */
  lemma {:induction false} UnescapeEscaped(text: string)
    ensures Unescaped(ToRegexString(text)) == text
  {
    ToRegexStringIsEscaped(text);
    UnescapeEscapedChars(text);
  }

  lemma {:induction false} UnescapeEscapedChars(text: string)
    ensures Unescaped(Escaped(text)) == text
    decreases |text|
  {
    if text != [] {
      var c := text[0];
      var rest := Escaped(text[1..]);
      UnescapeEscapedChars(text[1..]);
      if c == '+' || c == '.' {
        assert Escaped(text) == ['\\', c] + rest;
        assert (['\\', c] + rest)[2..] == rest;
      } else if c == '\\' {
        assert Escaped(text) == [c] + rest;
        assert ([c] + rest)[1..] == rest;
        // the next character of `rest` is escaped itself, so it is not a bare `+` or `.`
        EscapedStart(text[1..]);
      } else {
        assert Escaped(text) == [c] + rest;
        assert ([c] + rest)[1..] == rest;
      }
    }
  }

  /** An escaped text never starts with a bare `+` or `.`. */
  lemma EscapedStart(text: string)
    ensures |Escaped(text)| > 0 ==> Escaped(text)[0] != '+' && Escaped(text)[0] != '.'
  {
  }

  /** In the escaped text every `+` and `.` comes right after a backslash. */
  lemma {:induction false} EscapedGuardsSpecials(text: string)
    ensures var e := ToRegexString(text);
      forall i :: 0 <= i < |e| && (e[i] == '+' || e[i] == '.') ==> 0 < i && e[i - 1] == '\\'
  {
    ToRegexStringIsEscaped(text);
    EscapedGuards(text);
  }

  lemma {:induction false} EscapedGuards(text: string)
    ensures var e := Escaped(text);
      forall i :: 0 <= i < |e| && (e[i] == '+' || e[i] == '.') ==> 0 < i && e[i - 1] == '\\'
    decreases |text|
  {
    if text != [] {
      EscapedGuards(text[1..]);
      var h := EscapeChar(text[0]);
      var t := Escaped(text[1..]);
      var e := h + t;
      assert Escaped(text) == e;
      EscapedStart(text[1..]);
      forall i | 0 <= i < |e| && (e[i] == '+' || e[i] == '.') ensures 0 < i && e[i - 1] == '\\' {
        if i >= |h| {
          assert e[i] == t[i - |h|];
          if i > |h| {
            assert e[i - 1] == t[i - 1 - |h|];
          }
        }
      }
    }
  }

  /** `InvalidOperationException` of `AddOrConstraint`. */
  datatype EmptyConstraint = EmptyConstraint

  /** The prefix that marks a driver pattern as a regular expression. */
  const RegexPrefix: string := "regexp:"

  /**
   * `AddOrConstraint(initial, constraint)`: refused for a missing or empty
   * initial; an initial that is not yet a regular expression is escaped and
   * wrapped; the escaped constraint is added as one more alternative.
   */
  function AddOrConstraint(initial: Option<string>, constraint: string): Result<string, EmptyConstraint>
  {
    if initial.None? || initial.value == "" then Err(EmptyConstraint)
    else
      var start := if RegexPrefix <= initial.value then initial.value
                   else RegexPrefix + "(" + ToRegexString(initial.value) + ")";
      Ok(start + "|(" + ToRegexString(constraint) + ")")
  }

  lemma PrefixOfAppend(p: string, x: string)
    ensures p <= p + x
  {
    assert (p + x)[..|p|] == p;
  }

  /**
   * A non-empty initial always gives a regular expression. A regular
   * expression is extended by exactly one alternative; a plain initial is
   * first escaped and wrapped.
   */
  lemma AddOrConstraintSpec(initial: Option<string>, constraint: string)
    ensures AddOrConstraint(initial, constraint).Err? <==> initial.None? || initial.value == ""
    ensures var r := AddOrConstraint(initial, constraint);
      r.Ok? ==> RegexPrefix <= r.value
    ensures var r := AddOrConstraint(initial, constraint);
      r.Ok? && RegexPrefix <= initial.value ==> r.value == initial.value + "|(" + ToRegexString(constraint) + ")"
    ensures var r := AddOrConstraint(initial, constraint);
      r.Ok? && !(RegexPrefix <= initial.value) ==>
        r.value == RegexPrefix + "(" + ToRegexString(initial.value) + ")" + "|(" + ToRegexString(constraint) + ")"
  {
    var alt := "|(" + ToRegexString(constraint) + ")";
    if initial.Some? && initial.value != "" {
      if RegexPrefix <= initial.value {
        assert RegexPrefix <= initial.value + alt by {
          assert (initial.value + alt)[..|RegexPrefix|] == initial.value[..|RegexPrefix|];
        }
      } else {
        var start := RegexPrefix + "(" + ToRegexString(initial.value) + ")";
        PrefixOfAppend(RegexPrefix, "(" + ToRegexString(initial.value) + ")" + alt);
        assert start + alt == RegexPrefix + ("(" + ToRegexString(initial.value) + ")" + alt);
      }
    }
  }

  /** Chaining two calls on a plain initial yields the wrapped initial and both alternatives. */
  lemma AddOrConstraintChain(initial: string, c1: string, c2: string)
    requires initial != "" && !(RegexPrefix <= initial)
    ensures var first := AddOrConstraint(Some(initial), c1);
      first.Ok? && AddOrConstraint(Some(first.value), c2)
        == Ok(RegexPrefix + "(" + ToRegexString(initial) + ")" + "|(" + ToRegexString(c1) + ")" + "|(" + ToRegexString(c2) + ")")
  {
    AddOrConstraintSpec(Some(initial), c1);
    var first := AddOrConstraint(Some(initial), c1).value;
    AddOrConstraintSpec(Some(first), c2);
  }

  /**
   * The `switch` of the `ToString` loop: the key and the value text shown for
   * one constraint. A class name is shown as `Class` with the dot-free part
   * after its last dot; both control-name keys are shown as `ControlName`;
   * any other key is shown as it is. Only a class name's value is shortened.
   */
  method KeyValue(p: Item) returns (key: string, value: string)
    ensures key + "=" + value == Field(p)
    ensures p.0 == "ClrFullClassName" ==>
      var text := ValueText(p.1);
      key == "Class" && '.' !in value && |value| <= |text| && text[|text| - |value|..] == value
      && (|value| < |text| ==> text[|text| - |value| - 1] == '.')
    ensures p.0 == "WinFormsControlName" || p.0 == "WPFControlName" ==> key == "ControlName" && value == ValueText(p.1)
    ensures p.0 != "ClrFullClassName" && p.0 != "WinFormsControlName" && p.0 != "WPFControlName" ==>
      key == p.0 && value == ValueText(p.1)
  {
    if p.0 == "ClrFullClassName" {
      key, value := "Class", LastSegment(ValueText(p.1));
      LastSegmentSpec(ValueText(p.1));
    } else if p.0 == "WinFormsControlName" || p.0 == "WPFControlName" {
      key, value := "ControlName", ValueText(p.1);
    } else {
      key, value := p.0, ValueText(p.1);
    }
  }

  class Search {
    /** `pattern.GetPatternItems()`: the constraints in order. */
    var items: seq<Item>

    /** Every property name has one value. */
    ghost predicate Valid()
      reads this
    {
      NoDuplicates(Keys(items))
    }

    constructor ()
      ensures Valid() && items == []
    {
      items := [];
    }

    /** `And(name, value)`. */
    method And(name: string, value: Value)
      requires Valid()
      modifies this
      ensures Valid() && items == Put(old(items), name, value)
    {
      PutKeys(items, name, value);
      items := Put(items, name, value);
    }

    /** `AndIsEnabled`: requires the `Enabled` property to be true. */
    method AndIsEnabled()
      requires Valid()
      modifies this
      ensures Valid() && items == Put(old(items), "Enabled", Bool(true))
    {
      And("Enabled", Bool(true));
    }

    /** `AndIsVisible`: requires the `Visible` property to be true. */
    method AndIsVisible()
      requires Valid()
      modifies this
      ensures Valid() && items == Put(old(items), "Visible", Bool(true))
    {
      And("Visible", Bool(true));
    }

    /** `And(additionalSearch)`: every item of the other pattern in turn; nothing for a missing pattern. */
    method AndPattern(additional: Option<seq<Item>>)
      requires Valid()
      modifies this
      ensures Valid()
      ensures additional.None? ==> items == old(items)
      ensures additional.Some? ==> items == PutAll(old(items), additional.value)
    {
      if additional.Some? {
        var more := additional.value;
        var i := 0;
        while i < |more|
          invariant 0 <= i <= |more| && Valid()
          invariant PutAll(items, more[i..]) == PutAll(old(items), more)
        {
          assert more[i..][1..] == more[i + 1..];
          And(more[i].0, more[i].1);
          i := i + 1;
        }
      }
    }

    /** `ToString`: the loop of the source, building the rendering field by field. */
    method ToString() returns (result: string)
      ensures result == Rendered(items)
    {
      result := "";
      var sep := "";
      var i := 0;
      while i < |items|
        invariant 0 <= i <= |items|
        invariant result == Joined(Fields(items[..i]))
        invariant sep == if i == 0 then "" else "; "
      {
        var key, value := KeyValue(items[i]);
        var field := key + "=" + value;
        assert field == Field(items[i]);
        JoinedStep(items, i, result, sep);
        result := result + (field + sep);
        sep := "; ";
        i := i + 1;
      }
      assert items[..|items|] == items;
    }
  }
}
