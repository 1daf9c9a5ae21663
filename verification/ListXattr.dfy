/** The walk of `bb_listxattr` in bbfs.c over the buffer that llistxattr(2) has filled with
    NUL-terminated names: a pointer starts at the buffer and goes past each name and its NUL
    until the returned length is used up. */
module ListXattr {
  import opened Posix

  /** The layout of the buffer. */
  function Pack(names: seq<Bytes>): Bytes {
    if names == [] then [] else names[0] + [0] + Pack(names[1..])
  }

  predicate AreNames(names: seq<Bytes>) {
    forall i :: 0 <= i < |names| ==> 0 !in names[i]
  }

  lemma {:induction false} PackAppend(names: seq<Bytes>, name: Bytes)
    ensures Pack(names + [name]) == Pack(names) + name + [0]
  {
    if names == [] {
      assert Pack([name]) == name + [0] + Pack([]);
    } else {
      PackAppend(names[1..], name);
      assert (names + [name])[1..] == names[1..] + [name];
    }
  }

  /** The first names of two equal buffers end at the same NUL. */
  lemma SameHead(a: Bytes, b: Bytes, x: Bytes, y: Bytes)
    requires 0 !in a && 0 !in b && a + [0] + x == b + [0] + y
    ensures a == b && x == y
  {
    var s, t := a + [0] + x, b + [0] + y;
    assert s[|a|] == 0 && t[|b|] == 0;
    assert forall i :: 0 <= i < |a| ==> s[i] == a[i] && a[i] in a;
    assert forall i :: 0 <= i < |b| ==> t[i] == b[i] && b[i] in b;
    assert s[..|a|] == a && t[..|b|] == b && s[|a| + 1..] == x && t[|b| + 1..] == y;
  }

  /** A buffer is the layout of one list of names only. */
  lemma {:induction false} PackInjective(a: seq<Bytes>, b: seq<Bytes>)
    requires AreNames(a) && AreNames(b) && Pack(a) == Pack(b)
    ensures a == b
  {
    if a != [] && b != [] {
      SameHead(a[0], b[0], Pack(a[1..]), Pack(b[1..]));
      PackInjective(a[1..], b[1..]);
      assert a == [a[0]] + a[1..] && b == [b[0]] + b[1..];
    }
  }

  /** strlen(3) at position `ptr`, for a buffer that has a NUL at `end` or before. */
  method StrLen(list: array<Byte>, ptr: nat, end: nat) returns (n: nat)
    requires ptr <= end < list.Length && list[end] == 0
    ensures ptr + n <= end && list[ptr + n] == 0 && 0 !in list[ptr..ptr + n]
  {
    n := 0;
    while list[ptr + n] != 0
      invariant ptr + n <= end && 0 !in list[ptr..ptr + n]
      decreases end - ptr - n
    {
      assert list[ptr..ptr + n + 1] == list[ptr..ptr + n] + [list[ptr + n]];
      n := n + 1;
    }
  }

  /** Every filled buffer that ends with a NUL, or is empty, is walked exactly to its end.
      Putting the visited names back together gives the buffer, and they are the only names
      that do; a failed call (`retstat < 0`) walks nothing. */
  method Walk(list: array<Byte>, retstat: int) returns (visited: seq<Bytes>)
    requires retstat <= list.Length && (0 < retstat ==> list[retstat - 1] == 0)
    ensures AreNames(visited)
    ensures Pack(visited) == if retstat < 0 then [] else list[..retstat]
    ensures forall names :: AreNames(names) && 0 <= retstat && Pack(names) == list[..retstat] ==> visited == names
  {
    visited := [];
    if 0 <= retstat {
      var ptr := 0;
      while ptr < retstat
        invariant 0 <= ptr <= retstat && AreNames(visited) && Pack(visited) == list[..ptr]
      {
        var n := StrLen(list, ptr, retstat - 1);
        PackAppend(visited, list[ptr..ptr + n]);
        visited := visited + [list[ptr..ptr + n]];
        assert list[..ptr + n + 1] == list[..ptr] + list[ptr..ptr + n] + [0];
        ptr := ptr + n + 1;
      }
    }
    forall names | AreNames(names) && 0 <= retstat && Pack(names) == list[..retstat]
      ensures visited == names
    {
      PackInjective(visited, names);
    }
  }
}
