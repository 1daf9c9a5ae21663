/** The `@KEY@` expander in the awk program of `config.status`. The program splits a line
    at its `@` signs and then rewrites the line in place while an offset and a field index,
    which jumps by two after a substitution, run along it. It is proved to compute what a
    scanner that reads the line once from left to right computes. */
module Expander {

  /** The position of the first `@`, or the length if there is none. */
  function At(s: string): (a: nat)
    ensures a <= |s| && '@' !in s[..a] && (a < |s| ==> s[a] == '@')
  {
    if s == "" || s[0] == '@' then
      0
    else
      assert s[..1 + At(s[1..])] == [s[0]] + s[1..][..At(s[1..])];
      1 + At(s[1..])
  }

  lemma {:induction false} AtFirst(x: string, y: string)
    requires '@' !in x
    ensures At(x + "@" + y) == |x|
    ensures At(x) == |x|
  {
    if x == "" {
      assert (x + "@" + y)[0] == '@';
    } else {
      AtFirst(x[1..], y);
      assert (x + "@" + y)[0] == x[0];
      assert (x + "@" + y)[1..] == x[1..] + "@" + y;
    }
  }

  // ----- The specification: one pass from left to right

  /** A closed `@KEY@` with a value is replaced, and scanning goes on behind it, so that
      inserted text is never looked at again. Without a value its text stays, and its
      closing `@` may open the next candidate. */
  function Scan(s: string, values: map<string, string>): string
    decreases |s|
  {
    var a := At(s);
    if a == |s| then
      s
    else
      var rest := s[a + 1..];
      var b := At(rest);
      var key := rest[..b];
      if b == |rest| then s
      else if key in values then s[..a] + values[key] + Scan(rest[b + 1..], values)
      else s[..a] + "@" + key + Scan(rest[b..], values)
  }

  /** The keys that are replaced on the way. */
  function Keys(s: string, values: map<string, string>): (keys: seq<string>)
    ensures forall k :: k in keys ==> k in values
    decreases |s|
  {
    var a := At(s);
    if a == |s| then
      []
    else
      var rest := s[a + 1..];
      var b := At(rest);
      var key := rest[..b];
      if b == |rest| then []
      else if key in values then [key] + Keys(rest[b + 1..], values)
      else Keys(rest[b..], values)
  }

  /** What replacing the keys adds to the length; each key also loses its two `@`. */
  function Growth(keys: seq<string>, values: map<string, string>): int
    requires forall k :: k in keys ==> k in values
  {
    if keys == [] then 0
    else |values[keys[0]]| - |keys[0]| - 2 + Growth(keys[1..], values)
  }

  /** A line is plain text, or has one `@`, or starts with a closed candidate. */
  lemma Shape(s: string) returns (x: string, key: string, y: string)
    ensures '@' !in x && '@' !in key
    ensures At(s) == |s| ==> s == x
    ensures At(s) < |s| ==> At(s) == |x| && s[..|x|] == x
    ensures At(s) < |s| && At(s[|x| + 1..]) == |s| - |x| - 1 ==> s == x + "@" + key
    ensures At(s) < |s| && At(s[|x| + 1..]) < |s| - |x| - 1 ==> s == x + "@" + key + "@" + y
  {
    var a := At(s);
    x, key, y := s[..a], "", "";
    if a == |s| {
      assert s[..a] == s;
    } else {
      var rest := s[a + 1..];
      var b := At(rest);
      key := rest[..b];
      CutAt(s, a);
      if b == |rest| {
        assert rest[..b] == rest;
      } else {
        y := rest[b + 1..];
        CutAt(rest, b);
        Closing(x, key, y);
      }
    }
  }

  lemma CutAt(s: string, a: nat)
    requires a < |s| && s[a] == '@'
    ensures s == s[..a] + "@" + s[a + 1..]
  {
  }

  lemma Closing(x: string, key: string, y: string)
    ensures x + "@" + (key + "@" + y) == x + "@" + key + "@" + y
    ensures (x + "@" + key + "@" + y)[..|x|] == x && (x + "@" + key + "@" + y)[|x| + 1..] == key + "@" + y
    ensures (key + "@" + y)[..|key|] == key && (key + "@" + y)[|key| + 1..] == y && (key + "@" + y)[|key|..] == "@" + y
  {
  }

  /** A closed candidate behind plain text: replaced for good if it has a value, otherwise
      kept, its closing `@` being read again. */
  lemma ScanCandidate(x: string, key: string, y: string, values: map<string, string>)
    requires '@' !in x && '@' !in key
    ensures Scan(x + "@" + key + "@" + y, values)
         == if key in values then x + values[key] + Scan(y, values) else x + "@" + key + Scan("@" + y, values)
    ensures Keys(x + "@" + key + "@" + y, values)
         == if key in values then [key] + Keys(y, values) else Keys("@" + y, values)
  {
    Closing(x, key, y);
    AtFirst(x, key + "@" + y);
    AtFirst(key, y);
  }

  lemma ScanPlain(x: string, values: map<string, string>)
    requires '@' !in x
    ensures Scan(x, values) == x && Keys(x, values) == []
  {
    AtFirst(x, "");
  }

  /** The last `@` of a line closes nothing. */
  lemma ScanOpen(x: string, key: string, values: map<string, string>)
    requires '@' !in x && '@' !in key
    ensures Scan(x + "@" + key, values) == x + "@" + key && Keys(x + "@" + key, values) == []
  {
    AtFirst(x, key);
    AtFirst(key, "");
    assert (x + "@" + key)[|x| + 1..] == key;
  }

  // Concatenation, kept away from the scanner's own definition.

  lemma Regroup3(a: string, b: string, c: string, d: string)
    ensures a + (b + c + d) == (a + b) + c + d
  {
  }

  lemma Regroup4(a: string, b: string, c: string, d: string, e: string)
    ensures a + (b + c + d + e) == (a + b) + c + d + e
    ensures a + b + c + (d + e) == a + b + c + d + e
  {
  }

  /** A line in which nothing is replaced comes out as it went in. */
  lemma {:induction false} ScanIdle(s: string, values: map<string, string>)
    requires Keys(s, values) == []
    ensures Scan(s, values) == s
    decreases |s|
  {
    var x, key, y := Shape(s);
    if At(s) == |s| {
      ScanPlain(x, values);
    } else if At(s[|x| + 1..]) == |s| - |x| - 1 {
      ScanOpen(x, key, values);
    } else {
      ScanIdleCandidate(x, key, y, values);
      ScanIdle("@" + y, values);
    }
  }

  lemma GrowthCons(key: string, keys: seq<string>, values: map<string, string>)
    requires key in values && forall k :: k in keys ==> k in values
    ensures Growth([key] + keys, values) == |values[key]| - |key| - 2 + Growth(keys, values)
  {
    assert ([key] + keys)[1..] == keys;
  }

  /** The output is as much longer as the replaced keys say. */
  lemma {:induction false} ScanLength(s: string, values: map<string, string>)
    ensures |Scan(s, values)| == |s| + Growth(Keys(s, values), values)
    decreases |s|
  {
    var x, key, y := Shape(s);
    if At(s) == |s| {
      ScanPlain(x, values);
    } else if At(s[|x| + 1..]) == |s| - |x| - 1 {
      ScanOpen(x, key, values);
    } else {
      ScanCandidate(x, key, y, values);
      if key in values {
        ScanLength(y, values);
        GrowthCons(key, Keys(y, values), values);
      } else {
        ScanLength("@" + y, values);
      }
    }
  }

  lemma ScanIdleCandidate(x: string, key: string, y: string, values: map<string, string>)
    requires '@' !in x && '@' !in key && Keys(x + "@" + key + "@" + y, values) == []
    ensures Keys("@" + y, values) == []
    ensures Scan("@" + y, values) == "@" + y ==>
              Scan(x + "@" + key + "@" + y, values) == x + "@" + key + "@" + y
  {
    ScanCandidate(x, key, y, values);
    Regroup4(x, "@", key, "@", y);
  }

  /** Text without `@` is passed through. */
  lemma ScanText(x: string, y: string, values: map<string, string>)
    requires '@' !in x
    ensures Scan(x + y, values) == x + Scan(y, values)
    ensures Keys(x + y, values) == Keys(y, values)
  {
    var u, key, tail := Shape(y);
    if At(y) == |y| {
      ScanPlain(y, values);
      ScanPlain(x + y, values);
    } else if At(y[|u| + 1..]) == |y| - |u| - 1 {
      ScanOpen(u, key, values);
      ScanOpen(x + u, key, values);
      Regroup3(x, u, "@", key);
    } else {
      ScanTextCandidate(x, u, key, tail, values);
    }
  }

  lemma ScanTextCandidate(x: string, u: string, key: string, tail: string, values: map<string, string>)
    requires '@' !in x && '@' !in u && '@' !in key
    ensures var y := u + "@" + key + "@" + tail;
            Scan(x + y, values) == x + Scan(y, values) && Keys(x + y, values) == Keys(y, values)
  {
    ScanCandidate(u, key, tail, values);
    ScanCandidate(x + u, key, tail, values);
    Regroup5(x, u, "@", key, "@", tail);
    if key in values {
      Regroup3(x, u, values[key], Scan(tail, values));
    } else {
      Regroup4(x, u, "@", key, Scan("@" + tail, values));
    }
  }

  lemma Regroup5(a: string, b: string, c: string, d: string, e: string, f: string)
    ensures a + (b + c + d + e + f) == (a + b) + c + d + e + f
  {
  }

  // ----- The program

  /** awk's split at `@`; fields are counted from 1 there, and an empty line has none. */
  function Split(s: string): (fields: seq<string>)
    ensures s == "" <==> fields == []
    ensures forall i :: 0 <= i < |fields| ==> '@' !in fields[i]
    ensures s != "" ==> s == fields[0] + Rest(fields, 2)
  {
    if s == "" then [] else Fields(s)
  }

  function Fields(s: string): (fields: seq<string>)
    ensures fields != []
    ensures forall i :: 0 <= i < |fields| ==> '@' !in fields[i]
    ensures s == fields[0] + Rest(fields, 2)
  {
    var a := At(s);
    if a == |s| then
      assert s[..a] == s;
      [s]
    else
      var more := Fields(s[a + 1..]);
      FieldsJoin(s, a, more);
      [s[..a]] + more
  }

  lemma FieldsJoin(s: string, a: nat, more: seq<string>)
    requires a < |s| && s[a] == '@' && more != [] && s[a + 1..] == more[0] + Rest(more, 2)
    ensures s == s[..a] + Rest([s[..a]] + more, 2)
  {
    RestShift(s[..a], more, 1);
    assert Rest(more, 1) == "@" + more[0] + Rest(more, 2) == "@" + (more[0] + Rest(more, 2));
    assert s == s[..a] + ("@" + s[a + 1..]);
  }

  /** What field `i` and the later ones look like in the line, with an `@` before each. */
  function Rest(fields: seq<string>, i: nat): string
    requires 1 <= i
    decreases |fields| + 1 - i
  {
    if |fields| < i then "" else "@" + fields[i - 1] + Rest(fields, i + 1)
  }

  lemma {:induction false} RestShift(first: string, more: seq<string>, i: nat)
    requires 1 <= i
    ensures Rest([first] + more, i + 1) == Rest(more, i)
    decreases |more| + 1 - i
  {
    if i <= |more| {
      RestShift(first, more, i + 1);
    }
  }

  /** awk's substr with a length, and without: positions count from 1. */
  function Substr(s: string, length: nat): string {
    if length <= |s| then s[..length] else s
  }

  function SubstrFrom(s: string, start: nat): string
    requires 1 <= start
  {
    if start - 1 <= |s| then s[start - 1..] else ""
  }

  /** The assignment to `line`: keep the first `length` characters, put `value` for the key
      and its two `@`, keep what is behind them. */
  function Splice(line: string, length: nat, keylen: nat, value: string): string {
    Substr(line, length) + value + SubstrFrom(line, length + keylen + 3)
  }

  /** One turn of the loop, as the scanner sees it: the rest of the line loses two fields
      to a substitution and one otherwise. */
  lemma Turn(fields: seq<string>, i: nat, values: map<string, string>)
    requires 2 <= i < |fields| && forall j :: 0 <= j < |fields| ==> '@' !in fields[j]
    ensures var key := fields[i - 1];
            var rest := Rest(fields, i);
            && rest == "@" + key + "@" + fields[i] + Rest(fields, i + 2)
            && (key in values ==>
                  && Scan(rest, values) == values[key] + fields[i] + Scan(Rest(fields, i + 2), values)
                  && Keys(rest, values) == [key] + Keys(Rest(fields, i + 2), values))
            && (key !in values ==>
                  && Scan(rest, values) == "@" + key + Scan(Rest(fields, i + 1), values)
                  && Keys(rest, values) == Keys(Rest(fields, i + 1), values))
  {
    var key, next, tail := fields[i - 1], fields[i], Rest(fields, i + 2);
    assert Rest(fields, i) == "@" + key + ("@" + next + tail);
    TurnText(key, next, tail);
    ScanCandidate("", key, next + tail, values);
    if key in values {
      ScanText(next, tail, values);
      Regroup2(values[key], next, Scan(tail, values));
    }
  }

  lemma Regroup2(a: string, b: string, c: string)
    ensures a + (b + c) == a + b + c
  {
  }

  lemma TurnText(key: string, next: string, tail: string)
    ensures "@" + key + ("@" + next + tail) == "@" + key + "@" + next + tail
    ensures "@" + key + ("@" + next + tail) == "" + "@" + key + "@" + (next + tail)
    ensures "@" + next + tail == "@" + (next + tail)
    ensures forall s: string :: "" + "@" + key + s == "@" + key + s && "" + s == s
  {
  }

  /** Where the loop stops, nothing is left to replace. */
  lemma Stop(fields: seq<string>, i: nat, values: map<string, string>)
    requires 1 <= i && |fields| <= i && forall j :: 0 <= j < |fields| ==> '@' !in fields[j]
    ensures Scan(Rest(fields, i), values) == Rest(fields, i) && Keys(Rest(fields, i), values) == []
  {
    if i == |fields| {
      assert Rest(fields, i) == "" + "@" + fields[i - 1];
      ScanOpen("", fields[i - 1], values);
    }
  }

  /** What the fields from `i` on turn into, field by field, and the keys replaced there. */
  function Output(fields: seq<string>, i: nat, values: map<string, string>): string
    requires 1 <= i
    decreases |fields| + 1 - i
  {
    if |fields| <= i then Rest(fields, i)
    else if fields[i - 1] in values then values[fields[i - 1]] + fields[i] + Output(fields, i + 2, values)
    else "@" + fields[i - 1] + Output(fields, i + 1, values)
  }

  function Found(fields: seq<string>, i: nat, values: map<string, string>): seq<string>
    requires 1 <= i
    decreases |fields| + 1 - i
  {
    if |fields| <= i then []
    else if fields[i - 1] in values then [fields[i - 1]] + Found(fields, i + 2, values)
    else Found(fields, i + 1, values)
  }

  /** Going by fields is going by characters: the scanner produces the same. */
  lemma {:induction false} OutputIsScan(fields: seq<string>, i: nat, values: map<string, string>)
    requires 2 <= i && forall j :: 0 <= j < |fields| ==> '@' !in fields[j]
    ensures Output(fields, i, values) == Scan(Rest(fields, i), values)
    ensures Found(fields, i, values) == Keys(Rest(fields, i), values)
    decreases |fields| + 1 - i
  {
    if |fields| <= i {
      Stop(fields, i, values);
    } else {
      Turn(fields, i, values);
      OutputIsScan(fields, if fields[i - 1] in values then i + 2 else i + 1, values);
    }
  }

  lemma SplitIsScan(original: string, values: map<string, string>)
    ensures var fields := Split(original);
            && Scan(original, values) == (if fields == [] then "" else fields[0]) + Output(fields, 2, values)
            && Keys(original, values) == Found(fields, 2, values)
  {
    var fields := Split(original);
    OutputIsScan(fields, 2, values);
    if fields == [] {
      ScanPlain("", values);
    } else {
      ScanText(fields[0], Rest(fields, 2), values);
    }
  }

  /** The state at the head of the loop: `len` is the length of the finished prefix, and the
      line behind it is still the original text of the fields from `i` on. */
  ghost predicate AtHead(fields: seq<string>, i: nat, values: map<string, string>,
                         line: string, len: nat, whole: string)
    requires 1 <= i
  {
    len <= |line| && line[len..] == Rest(fields, i) && whole == line[..len] + Output(fields, i, values)
  }

  /** The loop of config.status. */
  method ExpandFields(original: string, field: seq<string>, values: map<string, string>)
    returns (line: string, substed: bool)
    requires field == [] ==> original == ""
    requires field != [] ==> original == field[0] + Rest(field, 2)
    ensures line == (if field == [] then "" else field[0]) + Output(field, 2, values)
    ensures substed <==> Found(field, 2, values) != []
  {
    line := original;
    var nfields := |field|;
    substed := false;
    var len: nat := if nfields == 0 then 0 else |field[0]|;
    ghost var whole := (if field == [] then "" else field[0]) + Output(field, 2, values);
    var i: nat := 2;
    while i < nfields
      invariant 2 <= i && (i <= nfields + 1 || i == 2)
      invariant AtHead(field, i, values, line, len, whole)
      invariant Found(field, 2, values) != [] <==> substed || Found(field, i, values) != []
    {
      ghost var i0, line0, len0 := i, line, len;
      var key := field[i - 1];
      var keylen := |key|;
      if key in values {
        var value := values[key];
        line := Splice(line, len, keylen, value);
        i := i + 1;
        len := len + |value| + |field[i - 1]|;
        substed := true;
      } else {
        len := len + 1 + keylen;
      }
      i := i + 1;
      Turned(field, i0, values, line0, len0, whole, i, line, len);
    }
    Finish(field, i, values, line, len, whole);
  }

  lemma Finish(fields: seq<string>, i: nat, values: map<string, string>, line: string, len: nat, whole: string)
    requires 1 <= i && |fields| <= i && AtHead(fields, i, values, line, len, whole)
    ensures whole == line && Found(fields, i, values) == []
  {
    assert line == line[..len] + line[len..];
  }

  lemma RestTwice(fields: seq<string>, i: nat)
    requires 2 <= i < |fields|
    ensures Rest(fields, i) == "@" + fields[i - 1] + "@" + fields[i] + Rest(fields, i + 2)
  {
    assert Rest(fields, i) == "@" + fields[i - 1] + ("@" + fields[i] + Rest(fields, i + 2));
  }

  /** One turn of the loop leads from one head state to the next. */
  lemma Turned(fields: seq<string>, i: nat, values: map<string, string>, line: string, len: nat, whole: string,
               i': nat, line': string, len': nat)
    requires 2 <= i < |fields| && AtHead(fields, i, values, line, len, whole)
    requires var key := fields[i - 1];
             if key in values
             then && i' == i + 2 && line' == Splice(line, len, |key|, values[key])
                  && len' == len + |values[key]| + |fields[i]|
             else i' == i + 1 && line' == line && len' == len + 1 + |key|
    ensures AtHead(fields, i', values, line', len', whole)
  {
    if fields[i - 1] in values {
      Hit(fields, i, values, line, len, whole, line', len');
    } else {
      Miss(fields, i, values, line, len, whole);
    }
  }

  lemma Hit(fields: seq<string>, i: nat, values: map<string, string>, line: string, len: nat, whole: string,
            line': string, len': nat)
    requires 2 <= i < |fields| && fields[i - 1] in values && AtHead(fields, i, values, line, len, whole)
    requires line' == Splice(line, len, |fields[i - 1]|, values[fields[i - 1]])
    requires len' == len + |values[fields[i - 1]]| + |fields[i]|
    ensures AtHead(fields, i + 2, values, line', len', whole)
  {
    var key, value, next := fields[i - 1], values[fields[i - 1]], fields[i];
    var tail, scanned, rest := HitParts(fields, i, values);
    Replaced(line, len, key, value, next, tail, whole, scanned, rest, line', len');
  }

  lemma HitParts(fields: seq<string>, i: nat, values: map<string, string>)
    returns (tail: string, scanned: string, rest: string)
    requires 2 <= i < |fields| && fields[i - 1] in values
    ensures tail == Rest(fields, i + 2) && scanned == Output(fields, i, values) && rest == Output(fields, i + 2, values)
    ensures Rest(fields, i) == "@" + fields[i - 1] + "@" + fields[i] + tail
    ensures scanned == values[fields[i - 1]] + fields[i] + rest
  {
    tail, scanned, rest := Rest(fields, i + 2), Output(fields, i, values), Output(fields, i + 2, values);
    RestTwice(fields, i);
  }

  lemma Miss(fields: seq<string>, i: nat, values: map<string, string>, line: string, len: nat, whole: string)
    requires 2 <= i < |fields| && fields[i - 1] !in values && AtHead(fields, i, values, line, len, whole)
    ensures AtHead(fields, i + 1, values, line, len + 1 + |fields[i - 1]|, whole)
  {
    var tail, scanned, rest := MissParts(fields, i, values);
    Skipped(line, len, fields[i - 1], tail, whole, scanned, rest);
  }

  lemma MissParts(fields: seq<string>, i: nat, values: map<string, string>)
    returns (tail: string, scanned: string, rest: string)
    requires 2 <= i < |fields| && fields[i - 1] !in values
    ensures tail == Rest(fields, i + 1) && scanned == Output(fields, i, values) && rest == Output(fields, i + 1, values)
    ensures Rest(fields, i) == "@" + fields[i - 1] + tail && scanned == "@" + fields[i - 1] + rest
  {
    tail, scanned, rest := Rest(fields, i + 1), Output(fields, i, values), Output(fields, i + 1, values);
  }

  /** The whole program on one line: the scanner's output, a flag that says whether it
      replaced anything, and a length that accounts for every replacement. */
  method ExpandLine(original: string, values: map<string, string>) returns (line: string, substed: bool)
    ensures line == Scan(original, values)
    ensures substed <==> Keys(original, values) != []
    ensures |line| == |original| + Growth(Keys(original, values), values)
  {
    var field := Split(original);
    line, substed := ExpandFields(original, field, values);
    SplitIsScan(original, values);
    ScanLength(original, values);
  }

  /** The in-place edit, with what the scanner makes of the whole line, of the part behind
      the prefix and of the part behind the next prefix. */
  lemma Replaced(line: string, len: nat, key: string, value: string, next: string, tail: string,
                 whole: string, scanned: string, rest: string, line': string, len': nat)
    requires len <= |line| && line[len..] == "@" + key + "@" + next + tail
    requires whole == line[..len] + scanned && scanned == value + next + rest
    requires line' == Splice(line, len, |key|, value) && len' == len + |value| + |next|
    ensures len' <= |line'| && line'[len'..] == tail && whole == line'[..len'] + rest
  {
    assert line[len..][|key| + 2..] == next + tail;
    assert SubstrFrom(line, len + |key| + 3) == next + tail;
    SpliceText(line[..len], value, next, tail);
    Regroup3(line[..len], value, next, rest);
  }

  lemma SpliceText(prefix: string, value: string, next: string, tail: string)
    ensures var line, len := prefix + value + (next + tail), |prefix| + |value| + |next|;
            len <= |line| && line[..len] == prefix + value + next && line[len..] == tail
  {
    assert prefix + value + (next + tail) == (prefix + value + next) + tail;
  }

  lemma Skipped(line: string, len: nat, key: string, tail: string, whole: string, scanned: string, rest: string)
    requires len <= |line| && line[len..] == "@" + key + tail
    requires whole == line[..len] + scanned && scanned == "@" + key + rest
    ensures var len' := len + 1 + |key|;
            len' <= |line| && line[len'..] == tail && whole == line[..len'] + rest
  {
    assert line == line[..len] + ("@" + key + tail);
    assert line[..len + 1 + |key|] == line[..len] + "@" + key;
    assert line[..len] + ("@" + key + rest) == line[..len] + "@" + key + rest;
  }
}
