/** Quoted fields of a command line: field_get of src/slm_at_main.c and _quoted_fields of
    tools/sensor_sim.py against the lines the builders print. A C string is a string without its
    terminating NUL. */
module AtFields {
  import opened Basics
  import opened AtHex

  // ------------------------------------------------------------------- fields

  /** strchr from index i, or |s|. */
  function Find(s: string, c: char, i: nat): (r: nat)
    requires i <= |s|
    ensures i <= r <= |s|
    decreases |s| - i
  {
    if i == |s| || s[i] == c then i else Find(s, c, i + 1)
  }

  lemma {:induction false} FindIs(s: string, c: char, i: nat, r: nat)
    requires i <= r <= |s| && (r < |s| ==> s[r] == c) && forall k :: i <= k < r ==> s[k] != c
    ensures Find(s, c, i) == r
    decreases r - i
  {
    if i < r {
      FindIs(s, c, i + 1, r);
    }
  }

  /** The idx-th quoted field at or after position p. */
  function FieldFrom(s: string, p: nat, idx: nat): Option<string>
    requires p <= |s|
    decreases |s| - p
  {
    var a := Find(s, '"', p);
    if a == |s| then None
    else
      var b := Find(s, '"', a + 1);
      if b == |s| then None
      else if idx == 0 then Some(s[a + 1..b])
      else FieldFrom(s, b + 1, idx - 1)
  }

  /** field_get. */
  function Field(s: string, idx: nat): Option<string> {
    FieldFrom(s, 0, idx)
  }

  /** field_hex_u64. */
  function FieldHex(s: string, idx: nat): Option<uint64> {
    match Field(s, idx)
    case None => None
    case Some(f) => if f == [] then None else HexU64(f)
  }

  /** _quoted_fields: all fields, or None when a quote is left open. */
  function FieldsFrom(s: string, p: nat): Option<seq<string>>
    requires p <= |s|
    decreases |s| - p
  {
    var a := Find(s, '"', p);
    if a == |s| then Some([])
    else
      var b := Find(s, '"', a + 1);
      if b == |s| then None
      else
        match FieldsFrom(s, b + 1)
        case None => None
        case Some(fs) => Some([s[a + 1..b]] + fs)
  }

  /** The two parsers agree: where the Python one finds a list of fields, the C one finds the same fields by
      index and nothing past the end. */
  lemma {:induction false} ParsersAgree(s: string, p: nat, idx: nat)
    requires p <= |s| && FieldsFrom(s, p).Some?
    ensures var fs := FieldsFrom(s, p).value; FieldFrom(s, p, idx) == if idx < |fs| then Some(fs[idx]) else None
    decreases |s| - p
  {
    var a := Find(s, '"', p);
    if a < |s| {
      var b := Find(s, '"', a + 1);
      if idx > 0 {
        ParsersAgree(s, b + 1, idx - 1);
      }
    }
  }

  predicate Free(s: string, c: char) {
    forall i :: 0 <= i < |s| ==> s[i] != c
  }

  /** A command line: a prefix, the quoted fields with commas between them, and what follows. */
  function Spell(prefix: string, fields: seq<string>, tail: string): string
    decreases |fields|
  {
    if fields == [] then prefix + tail
    else prefix + "\"" + fields[0] + "\"" + Spell(if |fields| == 1 then "" else ",", fields[1..], tail)
  }

  predicate AllFree(fields: seq<string>, c: char) {
    forall i :: 0 <= i < |fields| ==> Free(fields[i], c)
  }

  lemma FindAfter(head: string, c: char, rest: string, i: nat)
    requires i <= |head| && (forall k :: i <= k < |head| ==> head[k] != c)
    requires rest != [] && rest[0] == c
    ensures Find(head + rest, c, i) == |head|
  {
    var s := head + rest;
    assert s[|head|] == c && forall k :: i <= k < |head| ==> s[k] == head[k];
    FindIs(s, c, i, |head|);
  }

  /** Where the first field of a line lies. */
  lemma FirstField(done: string, prefix: string, f: string, rest: string)
    requires Free(prefix, '"') && Free(f, '"')
    ensures var s := done + (prefix + "\"" + f + "\"" + rest);
      var a := |done| + |prefix|;
      && Find(s, '"', |done|) == a && Find(s, '"', a + 1) == a + 1 + |f| && s[a + 1..a + 1 + |f|] == f
      && s == (done + prefix + "\"" + f + "\"") + rest && |done + prefix + "\"" + f + "\""| == a + |f| + 2 < |s| + 1
  {
    var s := done + (prefix + "\"" + f + "\"" + rest);
    var head, tail := done + prefix, "\"" + f + "\"" + rest;
    assert s == head + tail;
    FindAfter(head, '"', tail, |done|);
    var head', tail' := done + prefix + "\"" + f, "\"" + rest;
    assert s == head' + tail';
    FindAfter(head', '"', tail', |head| + 1);
  }

  /** A field between two quotes. */
  lemma FieldRead(s: string, p: nat, a: nat, b: nat, f: string, fs: seq<string>)
    requires p <= |s| && Find(s, '"', p) == a < |s| && Find(s, '"', a + 1) == b < |s| && s[a + 1..b] == f
    requires FieldsFrom(s, b + 1) == Some(fs)
    ensures FieldsFrom(s, p) == Some([f] + fs)
  {
  }

  /** One field and then the rest. */
  lemma FirstThenRest(done: string, prefix: string, f: string, rest: string, fs: seq<string>)
    requires Free(prefix, '"') && Free(f, '"')
    requires var head := done + prefix + "\"" + f + "\""; FieldsFrom(head + rest, |head|) == Some(fs)
    ensures FieldsFrom(done + (prefix + "\"" + f + "\"" + rest), |done|) == Some([f] + fs)
  {
    FirstField(done, prefix, f, rest);
    var a := |done| + |prefix|;
    FieldRead(done + (prefix + "\"" + f + "\"" + rest), |done|, a, a + 1 + |f|, f, fs);
  }

  /** Reading the fields of a printed line gives them back, whatever precedes the line. */
  lemma {:induction false} SpellReads(done: string, prefix: string, fields: seq<string>, tail: string)
    requires Free(prefix, '"') && Free(tail, '"') && AllFree(fields, '"')
    ensures FieldsFrom(done + Spell(prefix, fields, tail), |done|) == Some(fields)
    decreases |fields|
  {
    if fields == [] {
      FindIs(done + (prefix + tail), '"', |done|, |done + (prefix + tail)|);
    } else {
      var sep := if |fields| == 1 then "" else ",";
      SpellReads(done + prefix + "\"" + fields[0] + "\"", sep, fields[1..], tail);
      FirstThenRest(done, prefix, fields[0], Spell(sep, fields[1..], tail), fields[1..]);
      assert fields == [fields[0]] + fields[1..];
    }
  }

  /** Printed lines read back in both languages: _quoted_fields returns the fields, field_get returns field i
      for every i, and fails past the end. */
  lemma SpellRoundTrip(prefix: string, fields: seq<string>, tail: string, idx: nat)
    requires Free(prefix, '"') && Free(tail, '"') && AllFree(fields, '"')
    ensures FieldsFrom(Spell(prefix, fields, tail), 0) == Some(fields)
    ensures Field(Spell(prefix, fields, tail), idx) == if idx < |fields| then Some(fields[idx]) else None
  {
    SpellReads("", prefix, fields, tail);
    assert "" + Spell(prefix, fields, tail) == Spell(prefix, fields, tail);
    ParsersAgree(Spell(prefix, fields, tail), 0, idx);
  }

  // ---------------------------------------------------------- as the code runs

  method StrChr(s: string, c: char, from: nat) returns (r: nat)
    requires from <= |s|
    ensures r == Find(s, c, from)
  {
    r := from;
    while r < |s|
      invariant from <= r <= |s| && forall k :: from <= k < r ==> s[k] != c
    {
      if s[r] == c {
        break;
      }
      r := r + 1;
    }
    FindIs(s, c, from, r);
  }

  /** One turn of the field loop, from position p. */
  lemma FieldUnfolds(s: string, p: nat, idx: nat)
    requires p <= |s|
    ensures var a := Find(s, '"', p);
      if a == |s| || Find(s, '"', a + 1) == |s| then FieldFrom(s, p, idx) == None
      else
        var b := Find(s, '"', a + 1);
        FieldFrom(s, p, idx) == if idx == 0 then Some(s[a + 1..b]) else FieldFrom(s, b + 1, idx - 1)
  {
  }

  /** field_get. */
  method FieldGet(args: string, idx: nat) returns (f: Option<string>)
    ensures f == Field(args, idx)
  {
    ghost var goal := Field(args, idx);
    var p, n := 0, 0;
    while true
      invariant p <= |args| && n <= idx && FieldFrom(args, p, idx - n) == goal
      decreases |args| - p
    {
      FieldUnfolds(args, p, idx - n);
      var open := StrChr(args, '"', p);
      if open == |args| {
        return None;
      }
      var close := StrChr(args, '"', open + 1);
      if close == |args| {
        return None;
      }
      if n == idx {
        return Some(args[open + 1..close]);
      }
      p, n := close + 1, n + 1;
    }
  }

  /** field_hex_u64. */
  method FieldHexU64(args: string, idx: nat) returns (out: Option<uint64>)
    ensures out == FieldHex(args, idx)
  {
    var f := FieldGet(args, idx);
    if f.None? || |f.value| == 0 {
      return None;
    }
    out := ParseU64(f.value);
  }

  /** _quoted_fields. */
  method QuotedFields(line: string) returns (out: Option<seq<string>>)
    ensures out == FieldsFrom(line, 0)
  {
    ghost var goal := FieldsFrom(line, 0);
    var fs: seq<string>, i := [], 0;
    Nothing(goal);
    while i < |line|
      invariant i <= |line| && goal == Prefixed(fs, FieldsFrom(line, i))
      decreases |line| - i
    {
      NextField(line, fs, i);
      var a := StrChr(line, '"', i);
      if a == |line| {
        return Some(fs);
      }
      var b := StrChr(line, '"', a + 1);
      if b == |line| {
        return None;
      }
      fs, i := fs + [line[a + 1..b]], b + 1;
    }
    NextField(line, fs, i);
    return Some(fs);
  }

  /** One turn of the loop. */
  lemma NextField(s: string, fs: seq<string>, p: nat)
    requires p <= |s|
    ensures var a := Find(s, '"', p);
      if a == |s| then Prefixed(fs, FieldsFrom(s, p)) == Some(fs)
      else
        var b := Find(s, '"', a + 1);
        Prefixed(fs, FieldsFrom(s, p)) == if b == |s| then None else Prefixed(fs + [s[a + 1..b]], FieldsFrom(s, b + 1))
  {
    FieldsUnfold(s, p);
    Nothing(Some(fs));
    var a := Find(s, '"', p);
    if a < |s| && Find(s, '"', a + 1) < |s| {
      var b := Find(s, '"', a + 1);
      PrefixedMore(fs, s[a + 1..b], FieldsFrom(s, b + 1));
    }
  }

  function Prefixed(fs: seq<string>, rest: Option<seq<string>>): Option<seq<string>> {
    match rest
    case None => None
    case Some(gs) => Some(fs + gs)
  }

  lemma Nothing(x: Option<seq<string>>)
    ensures Prefixed([], x) == x
    ensures x.Some? ==> Prefixed(x.value, Some([])) == x
  {
    if x.Some? {
      assert [] + x.value == x.value && x.value + [] == x.value;
    }
  }

  lemma FieldsUnfold(s: string, p: nat)
    requires p <= |s|
    ensures var a := Find(s, '"', p);
      if a == |s| then FieldsFrom(s, p) == Some([])
      else if Find(s, '"', a + 1) == |s| then FieldsFrom(s, p) == None
      else
        var b := Find(s, '"', a + 1);
        FieldsFrom(s, p) == Prefixed([s[a + 1..b]], FieldsFrom(s, b + 1))
  {
  }

  lemma PrefixedMore(fs: seq<string>, f: string, rest: Option<seq<string>>)
    ensures Prefixed(fs, Prefixed([f], rest)) == Prefixed(fs + [f], rest)
  {
    if rest.Some? {
      assert fs + ([f] + rest.value) == (fs + [f]) + rest.value;
    }
  }
}
