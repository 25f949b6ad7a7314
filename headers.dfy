/// Header fields: parsing one header line (`read_header`) and the header
/// store with its case-insensitive lookup (`lookup_header`).
module Headers {
  import opened Common
  import opened Ascii

  /** One header field. `name` keeps the case it arrived in; `value` has its
      leading blanks removed but keeps the line terminator. */
  datatype Header = Header(name: string, value: string)

  /** `p = strchr(s, c); *p++ = '\0';`: the text before the first `c` and
      the text after it, or `None` when `s` has no `c`. */
  function SplitAt(s: string, c: char): (r: Option<(string, string)>)
    ensures r.None? <==> forall i :: 0 <= i < |s| ==> s[i] != c
    ensures r.Some? ==> s == r.value.0 + [c] + r.value.1
    ensures r.Some? ==> forall i :: 0 <= i < |r.value.0| ==> r.value.0[i] != c
  {
    if s == [] then None
    else if s[0] == c then Some(([], s[1..]))
    else match SplitAt(s[1..], c)
      case None => None
      case Some((before, after)) =>
        assert s == [s[0]] + s[1..];
        Some(([s[0]] + before, after))
  }

  /** The split happens at the first occurrence, so it is unique. */
  lemma {:induction false} SplitAtFirst(before: string, c: char, after: string)
    requires forall i :: 0 <= i < |before| ==> before[i] != c
    ensures SplitAt(before + [c] + after, c) == Some((before, after))
  {
    if before != [] {
      assert (before + [c] + after)[1..] == before[1..] + [c] + after;
      SplitAtFirst(before[1..], c, after);
      assert [before[0]] + before[1..] == before;
    } else {
      assert (before + [c] + after)[1..] == after;
    }
  }

  predicate IsBlank(c: char) { c == ' ' || c == '\t' }

  /** `p += strspn(p, " \t")`: what is left once leading spaces and tabs are skipped. */
  function SkipBlanks(s: string): (r: string)
    ensures |r| <= |s| && r == s[|s| - |r|..]
    ensures forall i :: 0 <= i < |s| - |r| ==> IsBlank(s[i])
    ensures r == [] || !IsBlank(r[0])
  {
    if s != [] && IsBlank(s[0]) then SkipBlanks(s[1..]) else s
  }

  lemma {:induction false} SkipBlanksOf(blanks: string, rest: string)
    requires forall i :: 0 <= i < |blanks| ==> IsBlank(blanks[i])
    requires rest == [] || !IsBlank(rest[0])
    ensures SkipBlanks(blanks + rest) == rest
  {
    if blanks != [] {
      assert (blanks + rest)[1..] == blanks[1..] + rest;
      SkipBlanksOf(blanks[1..], rest);
    } else {
      assert blanks + rest == rest;
    }
  }

  /** A line that ends the header block: one starting with a newline, or
      exactly CR LF. */
  predicate IsEndOfHeaders(line: string) {
    (|line| > 0 && line[0] == '\n') || line == "\r\n"
  }

  /** The parsing half of `read_header`: `None` ends the block, a line without
      a colon is fatal, otherwise the name is everything before the first
      colon and the value everything after it, leading blanks skipped. */
  function ParseHeaderLine(line: string): Result<Option<Header>> {
    if IsEndOfHeaders(line) then Ok(None)
    else match SplitAt(line, ':')
      case None => Fail(HeaderSyntax(line))
      case Some((name, after)) => Ok(Some(Header(name, SkipBlanks(after))))
  }

  /** What a parsed header line looks like: the name, a colon, blanks and the
      value, with no colon in the name and no blank at the head of the value.
      An end line yields no field, and a line that is neither an end line nor
      holds a colon is fatal. */
  lemma ParseHeaderLineFields(line: string)
    ensures ParseHeaderLine(line).Ok? && ParseHeaderLine(line).value.Some? ==>
      var h := ParseHeaderLine(line).value.value;
      var blanks := line[|h.name| + 1..|line| - |h.value|];
      && !IsEndOfHeaders(line)
      && |h.name| + 1 + |h.value| <= |line|
      && line == h.name + ":" + blanks + h.value
      && (forall i :: 0 <= i < |h.name| ==> h.name[i] != ':')
      && (forall i :: 0 <= i < |blanks| ==> IsBlank(blanks[i]))
      && (h.value == [] || !IsBlank(h.value[0]))
    ensures ParseHeaderLine(line).Ok? && ParseHeaderLine(line).value.None? <==> IsEndOfHeaders(line)
    ensures ParseHeaderLine(line).Fail? <==>
      !IsEndOfHeaders(line) && forall i :: 0 <= i < |line| ==> line[i] != ':'
    ensures ParseHeaderLine(line).Fail? ==> ParseHeaderLine(line).error == HeaderSyntax(line)
  {
    if !IsEndOfHeaders(line) && SplitAt(line, ':').Some? {
      var (name, after) := SplitAt(line, ':').value;
      assert ParseHeaderLine(line) == Ok(Some(Header(name, SkipBlanks(after))));
      SplitLineShape(line, name, after);
    }
  }

  /** The line split at its first colon, blanks skipped after it. */
  lemma SplitLineShape(line: string, name: string, after: string)
    requires line == name + [':'] + after
    ensures var value := SkipBlanks(after);
      var blanks := line[|name| + 1..|line| - |value|];
      && |name| + 1 + |value| <= |line|
      && line == name + ":" + blanks + value
      && (forall i :: 0 <= i < |blanks| ==> IsBlank(blanks[i]))
  {
    var value := SkipBlanks(after);
    var blanks := after[..|after| - |value|];
    assert after == blanks + value;
    assert line == name + ":" + blanks + value;
    assert line[|name| + 1..|line| - |value|] == blanks;
  }

  /** A header line in the usual shape reads back as the field it encodes;
      the value keeps everything after the blanks, line terminator included. */
  lemma ParseHeaderLineRoundTrip(name: string, blanks: string, value: string)
    requires forall i :: 0 <= i < |name| ==> name[i] != ':'
    requires name == [] || name[0] != '\n'
    requires forall i :: 0 <= i < |blanks| ==> IsBlank(blanks[i])
    requires value == [] || !IsBlank(value[0])
    ensures ParseHeaderLine(name + ":" + blanks + value) == Ok(Some(Header(name, value)))
  {
    var after := blanks + value;
    var line := name + [':'] + after;
    assert name + ":" + blanks + value == line;
    SplitAtFirst(name, ':', after);
    assert !IsEndOfHeaders(line) by {
      assert line[0] == (if name == [] then ':' else name[0]);
    }
    SkipBlanksOf(blanks, value);
  }

  // ---------------------------------------------------------------- the store

  /** Does this field have the name looked for, ignoring case (`strcasecmp`)? */
  predicate Named(h: Header, name: string) {
    EqualsIgnoreCase(h.name, name)
  }

  /** `lookup_header`: the value of the first field in store order whose name
      matches, or `None` when none does. */
  function Lookup(store: seq<Header>, name: string): (r: Option<string>)
    ensures r.None? <==> forall i :: 0 <= i < |store| ==> !Named(store[i], name)
    ensures r.Some? ==>
              exists i :: 0 <= i < |store| && Named(store[i], name) &&
                store[i].value == r.value && forall j :: 0 <= j < i ==> !Named(store[j], name)
  {
    if store == [] then None
    else if Named(store[0], name) then Some(store[0].value)
    else
      var r := Lookup(store[1..], name);
      assert r.Some? ==>
               exists i :: 0 < i < |store| && Named(store[i], name) &&
                 store[i].value == r.value && forall j :: 0 <= j < i ==> !Named(store[j], name) by {
        if r.Some? {
          var i :| 0 <= i < |store[1..]| && Named(store[1..][i], name)
            && store[1..][i].value == r.value && forall j :: 0 <= j < i ==> !Named(store[1..][j], name);
          assert forall j :: 0 < j < i + 1 ==> store[j] == store[1..][j - 1];
        }
      }
      r
  }

  /** The lookup does not depend on the case of the name asked for. */
  lemma {:induction false} LookupIgnoresCase(store: seq<Header>, n1: string, n2: string)
    requires EqualsIgnoreCase(n1, n2)
    ensures Lookup(store, n1) == Lookup(store, n2)
  {
    if store != [] {
      EqualsIgnoreCaseEquivalence(store[0].name, n1, n2);
      EqualsIgnoreCaseEquivalence(store[0].name, n2, n1);
      EqualsIgnoreCaseEquivalence(n1, n2, n1);
      LookupIgnoresCase(store[1..], n1, n2);
    }
  }

  /** Looking up in a concatenation looks in the front part first. */
  lemma {:induction false} LookupAppend(a: seq<Header>, b: seq<Header>, name: string)
    ensures Lookup(a + b, name) == if Lookup(a, name).Some? then Lookup(a, name) else Lookup(b, name)
  {
    if a != [] {
      assert (a + b)[0] == a[0] && (a + b)[1..] == a[1..] + b;
      LookupAppend(a[1..], b, name);
    } else {
      assert a + b == b;
    }
  }

  /** The order in which `readreq` leaves its fields: each one read goes to
      the front, so the store is the wire order reversed. */
  function Reverse(wire: seq<Header>): (r: seq<Header>)
    ensures |r| == |wire|
    ensures forall i :: 0 <= i < |wire| ==> r[i] == wire[|wire| - 1 - i]
  {
    if wire == [] then [] else Reverse(wire[1..]) + [wire[0]]
  }

  lemma ReverseCons(h: Header, more: seq<Header>)
    ensures Reverse([h] + more) == Reverse(more) + [h]
  {
    assert ([h] + more)[1..] == more;
  }

  /** The value of the last field on the wire that has the name, found by
      scanning the wire order from its end. */
  function LastOnWire(wire: seq<Header>, name: string): Option<string> {
    if wire == [] then None
    else if Named(wire[|wire| - 1], name) then Some(wire[|wire| - 1].value)
    else LastOnWire(wire[..|wire| - 1], name)
  }

  /** Because the store is the wire order reversed, `lookup_header` returns
      the value of the name's last occurrence on the wire. */
  lemma {:induction false} LookupIsLastOnWire(wire: seq<Header>, name: string)
    ensures Lookup(Reverse(wire), name) == LastOnWire(wire, name)
  {
    if wire != [] {
      var front := wire[..|wire| - 1];
      ReverseSnoc(wire);
      LookupAppend([wire[|wire| - 1]], Reverse(front), name);
      LookupIsLastOnWire(front, name);
    }
  }

  /** The last field on the wire is the first in the store. */
  lemma {:induction false} ReverseSnoc(wire: seq<Header>)
    requires wire != []
    ensures Reverse(wire) == [wire[|wire| - 1]] + Reverse(wire[..|wire| - 1])
  {
    var n := |wire|;
    var r, q := Reverse(wire), [wire[n - 1]] + Reverse(wire[..n - 1]);
    assert |r| == |q|;
    forall i | 0 <= i < n ensures r[i] == q[i] {
      if i > 0 {
        assert q[i] == Reverse(wire[..n - 1])[i - 1] == wire[..n - 1][n - 1 - i];
      }
    }
    assert r == q;
  }

  /** Two fields with the same name: the one sent later wins. */
  lemma DuplicateLastWins(name: string, first: string, second: string)
    ensures Lookup(Reverse([Header(name, first), Header(name, second)]), name) == Some(second)
  {
    var wire := [Header(name, first), Header(name, second)];
    LookupIsLastOnWire(wire, name);
    EqualsIgnoreCaseEquivalence(name, name, name);
  }
}
