/**
 * Time-of-day strings `H:M[:S]` and their value in seconds since midnight
 * (`str2seconds` in src/scheduler.py).
 */
module TimeOfDay {
  import opened Results

  /** Why a time-of-day string was refused. */
  datatype TimeError =
    | NotANumber(part: string)   // `float(part)` raised (ValueError)
    | TooManyParts(count: nat)   // more than three colon-separated parts

  /** Number of occurrences of `c` in `s`. */
  function Count(s: string, c: char): nat
  {
    if s == [] then 0 else (if s[0] == c then 1 else 0) + Count(s[1..], c)
  }

  /** Python's `s.split(sep)`: the maximal runs between separators, empty runs included. */
  function Split(s: string, sep: char): (r: seq<string>)
    ensures |r| == Count(s, sep) + 1
    ensures forall i :: 0 <= i < |r| ==> sep !in r[i]
  {
    if s == [] then [""]
    else if s[0] == sep then [""] + Split(s[1..], sep)
    else
      var rest := Split(s[1..], sep);
      [[s[0]] + rest[0]] + rest[1..]
  }

  /** `sep.join(parts)`: the inverse of `Split`. */
  function Join(parts: seq<string>, sep: char): string
    requires |parts| > 0
  {
    if |parts| == 1 then parts[0] else parts[0] + [sep] + Join(parts[1..], sep)
  }

  /** Splitting loses nothing: joining the parts back gives the string. */
  lemma {:induction false} JoinSplit(s: string, sep: char)
    ensures Join(Split(s, sep), sep) == s
  {
    if s != [] {
      JoinSplit(s[1..], sep);
      var rest := Split(s[1..], sep);
      if s[0] == sep {
        assert Split(s, sep)[1..] == rest;
      } else if |rest| == 1 {
        assert Split(s, sep) == [[s[0]] + rest[0]];
      } else {
        assert Split(s, sep)[1..] == rest[1..];
        assert Join(rest, sep) == rest[0] + [sep] + Join(rest[1..], sep);
      }
    }
  }

  /** Splitting the pieces of a join gives the pieces back, when no piece holds the separator. */
  lemma {:induction false} SplitJoin(parts: seq<string>, sep: char)
    requires |parts| > 0
    requires forall i :: 0 <= i < |parts| ==> sep !in parts[i]
    ensures Split(Join(parts, sep), sep) == parts
  {
    if |parts| == 1 {
      SplitNoSep(parts[0], sep);
    } else {
      SplitJoin(parts[1..], sep);
      SplitPrefix(parts[0], Join(parts[1..], sep), sep);
      assert parts == [parts[0]] + parts[1..];
    }
  }

  lemma {:induction false} SplitNoSep(s: string, sep: char)
    requires sep !in s
    ensures Split(s, sep) == [s]
  {
    if s != [] {
      SplitNoSep(s[1..], sep);
      assert [s[0]] + s[1..] == s;
    }
  }

  lemma {:induction false} SplitPrefix(a: string, b: string, sep: char)
    requires sep !in a
    ensures Split(a + [sep] + b, sep) == [a] + Split(b, sep)
  {
    if a == [] {
      assert a + [sep] + b == [sep] + b;
      assert ([sep] + b)[1..] == b;
    } else {
      SplitPrefix(a[1..], b, sep);
      assert (a + [sep] + b)[1..] == a[1..] + [sep] + b;
      assert [a[0]] + a[1..] == a;
    }
  }

  /** `parts[i]` is the first part that does not parse, and `e` reports it. */
  predicate FirstUnparsed(parts: seq<string>, parse: string -> Option<real>, i: nat, e: TimeError)
    requires i < |parts|
  {
    && e == NotANumber(parts[i])
    && parse(parts[i]).None?
    && forall j :: 0 <= j < i ==> parse(parts[j]).Some?
  }

  /** `[float(p) for p in parts]`: the first part that does not parse raises. */
  function ParseAll(parts: seq<string>, parse: string -> Option<real>): (r: Result<seq<real>, TimeError>)
    ensures r.Ok? <==> forall i :: 0 <= i < |parts| ==> parse(parts[i]).Some?
    ensures r.Ok? ==> |r.value| == |parts|
    ensures r.Ok? ==> forall i :: 0 <= i < |parts| ==> r.value[i] == parse(parts[i]).value
    ensures r.Err? ==> exists i :: 0 <= i < |parts| && FirstUnparsed(parts, parse, i, r.error)
  {
    if parts == [] then Ok([])
    else match parse(parts[0])
      case None =>
        assert FirstUnparsed(parts, parse, 0, NotANumber(parts[0]));
        Err(NotANumber(parts[0]))
      case Some(x) =>
        match ParseAll(parts[1..], parse)
        case Err(e) =>
          assert forall i :: 0 <= i < |parts| - 1 && FirstUnparsed(parts[1..], parse, i, e) ==>
            FirstUnparsed(parts, parse, i + 1, e);
          Err(e)
        case Ok(xs) => Ok([x] + xs)
  }

  /** `parts += [0, 0, 0]` followed by `parts[0] * 3600 + parts[1] * 60 + parts[2]`. */
  function Weigh(xs: seq<real>): (r: real)
    requires |xs| <= 3
    ensures r == (if 0 < |xs| then xs[0] * 3600.0 else 0.0)
               + (if 1 < |xs| then xs[1] * 60.0 else 0.0)
               + (if 2 < |xs| then xs[2] else 0.0)
  {
    var p := xs + [0.0, 0.0, 0.0];
    p[0] * 3600.0 + p[1] * 60.0 + p[2]
  }

  /** `str2seconds(s)`, with `float` given as `parse`. */
  function Str2Seconds(s: string, parse: string -> Option<real>): (r: Result<real, TimeError>)
    ensures r.Ok? <==> Count(s, ':') <= 2 && ParseAll(Split(s, ':'), parse).Ok?
    ensures ParseAll(Split(s, ':'), parse).Ok? ==>
      (r == Err(TooManyParts(Count(s, ':') + 1)) <==> Count(s, ':') > 2)
    ensures ParseAll(Split(s, ':'), parse).Err? ==> r == Err(ParseAll(Split(s, ':'), parse).error)
  {
    var parts := Split(s, ':');
    match ParseAll(parts, parse)
    case Err(e) => Err(e)
    case Ok(xs) =>
      if |xs| > 3 then Err(TooManyParts(|xs|))
      else Ok(Weigh(xs))
  }

  /** The value of an `H:M:S` string made of three numbers is `H*3600 + M*60 + S`. */
  lemma HmsValue(h: string, m: string, sec: string, parse: string -> Option<real>)
    requires ':' !in h && ':' !in m && ':' !in sec
    requires parse(h).Some? && parse(m).Some? && parse(sec).Some?
    ensures Str2Seconds(h + ":" + m + ":" + sec, parse) ==
      Ok(parse(h).value * 3600.0 + parse(m).value * 60.0 + parse(sec).value)
  {
    var s := h + ":" + m + ":" + sec;
    assert [h, m, sec][1..] == [m, sec] && [m, sec][1..] == [sec];
    assert Join([m, sec], ':') == m + ":" + sec;
    assert s == Join([h, m, sec], ':');
    SplitJoin([h, m, sec], ':');
  }

  /** Missing trailing parts count as 0: `H:M` has the value of `H:M:0`, and `H` that of `H:0:0`. */
  lemma PadsWithZero(h: string, m: string, parse: string -> Option<real>)
    requires ':' !in h && ':' !in m
    requires parse(h).Some? && parse(m).Some?
    ensures Str2Seconds(h + ":" + m, parse) == Ok(parse(h).value * 3600.0 + parse(m).value * 60.0)
    ensures Str2Seconds(h, parse) == Ok(parse(h).value * 3600.0)
  {
    assert [h, m][1..] == [m];
    assert h + ":" + m == Join([h, m], ':');
    SplitJoin([h, m], ':');
    SplitNoSep(h, ':');
  }

  /** `str2seconds("1:02:03.5") == 3723.5`. */
  lemma ExampleValue(parse: string -> Option<real>)
    requires parse("1") == Some(1.0) && parse("02") == Some(2.0) && parse("03.5") == Some(3.5)
    ensures Str2Seconds("1:02:03.5", parse) == Ok(3723.5)
  {
    assert "1:02:03.5" == "1" + ":" + "02" + ":" + "03.5";
    HmsValue("1", "02", "03.5", parse);
  }

  /** `str2seconds("1:2:3:4")` fails with the format error. */
  lemma ExampleTooManyParts(parse: string -> Option<real>)
    requires parse("1").Some? && parse("2").Some? && parse("3").Some? && parse("4").Some?
    ensures Str2Seconds("1:2:3:4", parse) == Err(TooManyParts(4))
  {
    assert "1:2:3:4" == Join(["1", "2", "3", "4"], ':');
    SplitJoin(["1", "2", "3", "4"], ':');
  }

  /**
   * `str2seconds("1:2:3:x")`: every part is converted before the parts are
   * counted, so the bad number is reported rather than the format error.
   */
  lemma ExampleBadPartFirst(parse: string -> Option<real>)
    requires parse("1").Some? && parse("2").Some? && parse("3").Some? && parse("x").None?
    ensures Str2Seconds("1:2:3:x", parse) == Err(NotANumber("x"))
  {
    assert "1:2:3:x" == Join(["1", "2", "3", "x"], ':');
    SplitJoin(["1", "2", "3", "x"], ':');
  }
}
