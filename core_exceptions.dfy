/** The core exception base class (app/core/exceptions.py): an exception keeps its keyword
    arguments as its attribute dictionary, and `str(e)` fills the class's message template
    with them after replacing every Enum member by its value. */
module CoreExceptions {
  import opened Wrappers

  /** A value that is not an Enum member, as it may appear in an exception's context. */
  datatype Plain = IntValue(i: int) | StrValue(s: string) | NoneValue

  /** A context value: a plain value, or an Enum member with its class name, member name and value. */
  datatype Arg = PlainArg(plain: Plain) | EnumArg(enumName: string, memberName: string, value: Plain) {
    /** What formatting sees once the Enum members have been unwrapped. */
    function Underlying(): Plain
    {
      match this
      case PlainArg(p) => p
      case EnumArg(_, _, v) => v
    }
  }

  // ---------------------------------------------------------------------------
  // str() of plain values

  const Digits: string := "0123456789"

  /** Decimal representation of a natural number, as `str` gives it. */
  function Decimal(n: nat): (s: string)
    ensures |s| >= 1
    ensures forall i :: 0 <= i < |s| ==> s[i] in Digits
    decreases n
  {
    if n < 10 then [Digits[n]] else Decimal(n / 10) + [Digits[n % 10]]
  }

  /** The number a string of decimal digits denotes (the inverse of Decimal). */
  function DecimalValue(s: string): nat
  {
    if s == [] then 0
    else DecimalValue(s[..|s| - 1]) * 10 + DigitValue(s[|s| - 1])
  }

  function DigitValue(c: char): nat
  {
    if '0' <= c <= '9' then (c as int - '0' as int) as nat else 0
  }

  /** Reading back the decimal text of a number gives the number. */
  lemma {:induction false} DecimalRoundTrip(n: nat)
    ensures DecimalValue(Decimal(n)) == n
    decreases n
  {
    var s := Decimal(n);
    if n < 10 {
      assert s == [Digits[n]];
      assert s[..0] == [];
    } else {
      DecimalRoundTrip(n / 10);
      assert s[..|s| - 1] == Decimal(n / 10);
      assert s[|s| - 1] == Digits[n % 10];
    }
  }

  /** `str(i)` of an int. */
  function IntText(i: int): string
  {
    if i < 0 then "-" + Decimal(-i) else Decimal(i)
  }

  /** `str(v)` of a plain value. */
  function PlainText(p: Plain): string
  {
    match p
    case IntValue(i) => IntText(i)
    case StrValue(s) => s
    case NoneValue => "None"
  }

  // ---------------------------------------------------------------------------
  // str.format with keyword arguments only

  /** The errors `str.format(**kwargs)` raises: KeyError for a name with no argument,
      IndexError for a positional field (no positional arguments are ever passed),
      ValueError for unbalanced braces. Fields using attribute, index, conversion or
      format-spec syntax are outside this model and reported as UnsupportedField. */
  datatype FormatError =
    | KeyError(key: string)
    | PositionalField(field: string)
    | UnsupportedField(field: string)
    | SingleOpenBrace
    | SingleCloseBrace
    | UnmatchedOpenBrace

  predicate IsDigits(s: string)
  {
    s != [] && forall i :: 0 <= i < |s| ==> '0' <= s[i] <= '9'
  }

  /** Characters that start syntax beyond a plain keyword name inside a field. */
  predicate IsFieldSyntax(c: char)
  {
    c in "{:!.["
  }

  /** Position of the first '}' in t. */
  function IndexOfClose(t: string): (r: Option<nat>)
    ensures r.Some? ==> r.value < |t| && t[r.value] == '}' && forall i :: 0 <= i < r.value ==> t[i] != '}'
    ensures r.None? ==> forall i :: 0 <= i < |t| ==> t[i] != '}'
  {
    if t == [] then None
    else if t[0] == '}' then Some(0)
    else match IndexOfClose(t[1..])
      case None => None
      case Some(k) => Some(k + 1)
  }

  function Prepend(s: string, r: Result<string, FormatError>): Result<string, FormatError>
  {
    match r
    case Success(v) => Success(s + v)
    case Failure(e) => Failure(e)
  }

  /** `t.format(**args)`, scanned left to right; the first error met is the one raised. */
  function Format(t: string, args: map<string, Plain>): Result<string, FormatError>
    decreases |t|
  {
    if t == [] then Success([])
    else if t[0] == '{' then
      if |t| == 1 then Failure(SingleOpenBrace)
      else if t[1] == '{' then Prepend("{", Format(t[2..], args))
      else match IndexOfClose(t[1..])
        case None => Failure(UnmatchedOpenBrace)
        case Some(k) =>
          var field := t[1..k + 1];
          if exists i :: 0 <= i < |field| && IsFieldSyntax(field[i]) then Failure(UnsupportedField(field))
          else if field == [] || IsDigits(field) then Failure(PositionalField(field))
          else if field !in args then Failure(KeyError(field))
          else Prepend(PlainText(args[field]), Format(t[k + 2..], args))
    else if t[0] == '}' then
      if |t| >= 2 && t[1] == '}' then Prepend("}", Format(t[2..], args))
      else Failure(SingleCloseBrace)
    else Prepend([t[0]], Format(t[1..], args))
  }

  // ---------------------------------------------------------------------------
  // Templates as literal text and named fields: the reference meaning of Format

  datatype Segment = Literal(text: string) | Field(name: string)

  /** A name Format looks up as a keyword: non-empty, not all digits, no brace or field syntax. */
  predicate ValidName(n: string)
  {
    n != [] && !IsDigits(n) && forall i :: 0 <= i < |n| ==> n[i] != '}' && !IsFieldSyntax(n[i])
  }

  /** Literal text as written in a template: braces doubled. */
  function Escape(s: string): string
  {
    if s == [] then [] else EscapeChar(s[0]) + Escape(s[1..])
  }

  function EscapeChar(c: char): string
  {
    if c == '{' || c == '}' then [c, c] else [c]
  }

  /** The template text of a list of segments. */
  function Render(segs: seq<Segment>): string
  {
    if segs == [] then []
    else
      (match segs[0]
       case Literal(s) => Escape(s)
       case Field(n) => "{" + n + "}")
      + Render(segs[1..])
  }

  /** The intended meaning: literal text copied, each field replaced by its argument's text,
      KeyError for the first field whose name has no argument. */
  function Expand(segs: seq<Segment>, args: map<string, Plain>): Result<string, FormatError>
  {
    if segs == [] then Success([])
    else match segs[0]
      case Literal(s) => Prepend(s, Expand(segs[1..], args))
      case Field(n) =>
        if n in args then Prepend(PlainText(args[n]), Expand(segs[1..], args))
        else Failure(KeyError(n))
  }

  lemma PrependAssoc(a: string, b: string, r: Result<string, FormatError>)
    ensures Prepend(a, Prepend(b, r)) == Prepend(a + b, r)
  {
    match r
    case Success(v) => assert a + (b + v) == (a + b) + v;
    case Failure(_) =>
  }

  lemma FormatLiteralChar(t: string, args: map<string, Plain>)
    requires t != [] && t[0] != '{' && t[0] != '}'
    ensures Format(t, args) == Prepend([t[0]], Format(t[1..], args))
  {
  }

  lemma FormatDoubledBrace(t: string, args: map<string, Plain>)
    requires |t| >= 2 && ((t[0] == '{' && t[1] == '{') || (t[0] == '}' && t[1] == '}'))
    ensures Format(t, args) == Prepend([t[0]], Format(t[2..], args))
  {
  }

  /** One step of Format on a field `{n}` followed by more template text. */
  lemma FormatFieldStep(n: string, rest: string, args: map<string, Plain>)
    requires ValidName(n)
    ensures Format("{" + n + "}" + rest, args) ==
            if n in args then Prepend(PlainText(args[n]), Format(rest, args)) else Failure(KeyError(n))
  {
    var t := "{" + n + "}" + rest;
    assert t[1..] == n + "}" + rest;
    IndexOfCloseAfterName(n, rest);
    assert t[1] == n[0];
    assert t[1..|n| + 1] == n;
    assert t[|n| + 2..] == rest;
    assert !(exists i :: 0 <= i < |n| && IsFieldSyntax(n[i]));
  }

  lemma FormatEscapedChar(c: char, tail: string, args: map<string, Plain>)
    ensures Format(EscapeChar(c) + tail, args) == Prepend([c], Format(tail, args))
  {
    var t := EscapeChar(c) + tail;
    if c == '{' || c == '}' {
      assert t[2..] == tail;
      FormatDoubledBrace(t, args);
    } else {
      assert t[1..] == tail;
      FormatLiteralChar(t, args);
    }
  }

  /** Formatting escaped literal text reproduces the text and goes on with the rest. */
  lemma {:induction false} FormatEscaped(s: string, rest: string, args: map<string, Plain>)
    ensures Format(Escape(s) + rest, args) == Prepend(s, Format(rest, args))
    decreases |s|
  {
    if s == [] {
      assert Escape(s) + rest == rest;
      match Format(rest, args)
      case Success(v) => assert s + v == v;
      case Failure(_) =>
    } else {
      var tail := Escape(s[1..]) + rest;
      assert Escape(s) + rest == EscapeChar(s[0]) + tail;
      FormatEscapedChar(s[0], tail, args);
      FormatEscaped(s[1..], rest, args);
      PrependAssoc([s[0]], s[1..], Format(rest, args));
      assert [s[0]] + s[1..] == s;
    }
  }

  lemma IndexOfCloseAfterName(n: string, rest: string)
    requires forall i :: 0 <= i < |n| ==> n[i] != '}'
    ensures IndexOfClose(n + "}" + rest) == Some(|n|)
    decreases |n|
  {
    if n != [] {
      IndexOfCloseAfterName(n[1..], rest);
      assert (n + "}" + rest)[1..] == n[1..] + "}" + rest;
    }
  }

  /** Formatting a rendered template gives exactly its reference meaning: the template's
      text with every `{name}` replaced by that name's argument, or KeyError for the first
      name that has none. */
  lemma {:induction false} FormatRendered(segs: seq<Segment>, args: map<string, Plain>)
    requires forall i :: 0 <= i < |segs| && segs[i].Field? ==> ValidName(segs[i].name)
    ensures Format(Render(segs), args) == Expand(segs, args)
    decreases |segs|
  {
    if segs != [] {
      var rest := Render(segs[1..]);
      FormatRendered(segs[1..], args);
      match segs[0]
      case Literal(s) =>
        FormatEscaped(s, rest, args);
      case Field(n) =>
        assert Render(segs) == "{" + n + "}" + rest;
        FormatFieldStep(n, rest, args);
    }
  }

  /** Text without braces is written in a template as itself. */
  lemma {:induction false} EscapePlainText(s: string)
    requires forall i :: 0 <= i < |s| ==> s[i] != '{' && s[i] != '}'
    ensures Escape(s) == s
    decreases |s|
  {
    if s != [] {
      EscapePlainText(s[1..]);
      assert [s[0]] + s[1..] == s;
    }
  }

  /** The replacement field `{name}` as it is written in a template. */
  function Placeholder(name: string): (t: string)
    ensures |t| == |name| + 2 && t[0] == '{' && t[|t| - 1] == '}'
  {
    "{" + name + "}"
  }

  /** Format of `before{name}rest`, with brace-free literal text before the field. */
  lemma FormatOneFieldThen(before: string, name: string, rest: string, args: map<string, Plain>)
    requires ValidName(name) && name in args
    requires '{' !in before && '}' !in before
    ensures Format(before + Placeholder(name) + rest, args) ==
            Prepend(before + PlainText(args[name]), Format(rest, args))
  {
    EscapePlainText(before);
    assert before + Placeholder(name) + rest == Escape(before) + ("{" + name + "}" + rest);
    FormatEscaped(before, "{" + name + "}" + rest, args);
    FormatFieldStep(name, rest, args);
    PrependAssoc(before, PlainText(args[name]), Format(rest, args));
  }

  /** Format of `before{name}after`, both literals brace-free: the field's text in between. */
  lemma FormatOneField(before: string, name: string, after: string, args: map<string, Plain>)
    requires ValidName(name) && name in args
    requires '{' !in before && '}' !in before
    requires '{' !in after && '}' !in after
    ensures Format(before + Placeholder(name) + after, args) == Success(before + PlainText(args[name]) + after)
  {
    FormatOneFieldThen(before, name, after, args);
    EscapePlainText(after);
    assert after == Escape(after) + [];
    FormatEscaped(after, [], args);
    assert after + [] == after;
  }

  /** Format of `l1{n1}l2{n2}l3`, all three literals brace-free. */
  lemma FormatTwoFields(l1: string, n1: string, l2: string, n2: string, l3: string, args: map<string, Plain>)
    requires ValidName(n1) && n1 in args && ValidName(n2) && n2 in args
    requires '{' !in l1 && '}' !in l1 && '{' !in l2 && '}' !in l2 && '{' !in l3 && '}' !in l3
    ensures Format(l1 + Placeholder(n1) + l2 + Placeholder(n2) + l3, args) ==
            Success(l1 + PlainText(args[n1]) + l2 + PlainText(args[n2]) + l3)
  {
    var rest := l2 + Placeholder(n2) + l3;
    FormatOneField(l2, n2, l3, args);
    FormatOneFieldThen(l1, n1, rest, args);
    AppendAssoc(l1 + Placeholder(n1), l2, Placeholder(n2));
    AppendAssoc(l1 + Placeholder(n1), l2 + Placeholder(n2), l3);
    AppendAssoc(l1 + PlainText(args[n1]), l2, PlainText(args[n2]));
    AppendAssoc(l1 + PlainText(args[n1]), l2 + PlainText(args[n2]), l3);
  }

  /** A field whose name is not among the arguments fails with KeyError for that name,
      whatever follows it. */
  lemma FormatMissingField(before: string, name: string, rest: string, args: map<string, Plain>)
    requires ValidName(name) && name !in args
    requires '{' !in before && '}' !in before
    ensures Format(before + Placeholder(name) + rest, args) == Failure(KeyError(name))
  {
    EscapePlainText(before);
    assert before + Placeholder(name) + rest == Escape(before) + ("{" + name + "}" + rest);
    FormatEscaped(before, "{" + name + "}" + rest, args);
    FormatFieldStep(name, rest, args);
  }

  // ---------------------------------------------------------------------------
  // The exception object and its in-place argument preparation

  /** A value after `_prepare_message_args`: Enum members replaced by their `.value`. */
  function Unwrap(a: Arg): (r: Arg)
    ensures r.PlainArg? && r.Underlying() == a.Underlying()
    ensures a.PlainArg? ==> r == a
  {
    PlainArg(a.Underlying())
  }

  /** The whole dictionary after `_prepare_message_args`. */
  function UnwrapAll(m: map<string, Arg>): map<string, Arg>
  {
    map k | k in m :: Unwrap(m[k])
  }

  /** The keyword arguments `format` receives. */
  function Arguments(m: map<string, Arg>): map<string, Plain>
  {
    map k | k in m :: m[k].Underlying()
  }

  /** What `str(e)` returns for an exception with this template and context. */
  function Str(template: string, context: map<string, Arg>): Result<string, FormatError>
  {
    Format(template, Arguments(UnwrapAll(context)))
  }

  /** Unwrapping keeps the keys, leaves no Enum member behind, changes no plain value,
      and a second unwrapping changes nothing. */
  lemma UnwrapAllProperties(m: map<string, Arg>)
    ensures UnwrapAll(m).Keys == m.Keys
    ensures forall k :: k in m ==> UnwrapAll(m)[k].PlainArg?
    ensures forall k :: k in m && m[k].PlainArg? ==> UnwrapAll(m)[k] == m[k]
    ensures forall k :: k in m && m[k].EnumArg? ==> UnwrapAll(m)[k] == PlainArg(m[k].value)
    ensures UnwrapAll(UnwrapAll(m)) == UnwrapAll(m)
    ensures Arguments(UnwrapAll(m)) == Arguments(m)
  {
  }

  /** SpendTimeTogetherCoreException: the class attribute `msg_template` and the instance
      dictionary `__dict__`, which holds exactly the constructor's keyword arguments. */
  class CoreException {
    const template: string
    var context: map<string, Arg>

    constructor (template: string, context: map<string, Arg>)
      ensures this.template == template && this.context == context
    {
      this.template := template;
      this.context := context;
    }

    /** `_prepare_message_args(self.__dict__)`: walks the keys and reassigns every Enum
        value to its `.value`, in place; returns the same dictionary. */
    method PrepareMessageArgs() returns (arguments: map<string, Arg>)
      modifies this
      ensures context == UnwrapAll(old(context))
      ensures arguments == context
    {
      var pending := context.Keys;
      while pending != {}
        invariant pending <= context.Keys
        invariant context.Keys == old(context).Keys
        invariant forall k :: k in context && k !in pending ==> context[k] == Unwrap(old(context)[k])
        invariant forall k :: k in pending ==> context[k] == old(context)[k]
        decreases pending
      {
        var key :| key in pending;
        if context[key].EnumArg? {
          context := context[key := PlainArg(context[key].value)];
        }
        pending := pending - {key};
      }
      arguments := context;
    }

    /** `__str__`: prepares the arguments in place, then formats the template with them. */
    method ToString() returns (r: Result<string, FormatError>)
      modifies this
      ensures context == UnwrapAll(old(context))
      ensures r == Str(template, old(context))
      ensures r == Str(template, context)
    {
      var arguments := PrepareMessageArgs();
      r := Format(template, Arguments(arguments));
      UnwrapAllProperties(old(context));
    }
  }
}
