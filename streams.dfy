/// The two stdio streams of the server: the request arrives on an input
/// stream read with `fgets` and `fread`, and the response goes to an output
/// stream written with `fprintf` and `fwrite`.
module Streams {
  import opened Common

  /** How many characters one `fgets(buf, LINE_BUF_SIZE, in)` takes from `s`
      when it may take at most `room` more: it stops after a newline, at the
      end of the input, or when the buffer is full. */
  function LineLength(s: string, room: nat): (k: nat)
    ensures k <= |s| && k <= room
    ensures s != [] && room > 0 ==> k > 0
    ensures forall i :: 0 <= i < k - 1 ==> s[i] != '\n'
    ensures k == |s| || k == room || (k > 0 && s[k - 1] == '\n')
  {
    if s == [] || room == 0 then 0
    else if s[0] == '\n' then 1
    else 1 + LineLength(s[1..], room - 1)
  }

  /** `fgets`: `None` at end of input, otherwise the line read (terminator
      included) and what remains of the input. */
  function FGets(s: string): (r: Option<(string, string)>)
    ensures r.None? <==> s == []
    ensures r.Some? ==> r.value.0 + r.value.1 == s
    ensures r.Some? ==> 0 < |r.value.0| <= LINE_BUF_SIZE - 1
  {
    if s == [] then None
    else
      var k := LineLength(s, LINE_BUF_SIZE - 1);
      assert s[..k] + s[k..] == s;
      Some((s[..k], s[k..]))
  }

  predicate NoNewline(s: string) {
    forall i :: 0 <= i < |s| ==> s[i] != '\n'
  }

  lemma NoNewlineConcat(a: string, b: string)
    requires NoNewline(a) && NoNewline(b)
    ensures NoNewline(a + b)
  {
    assert forall i :: |a| <= i < |a + b| ==> (a + b)[i] == b[i - |a|];
  }

  /** A newline-terminated line that fits in the buffer is read whole. */
  lemma FGetsWholeLine(text: string, rest: string)
    requires NoNewline(text)
    requires |text| < LINE_BUF_SIZE - 1
    ensures FGets(text + "\n" + rest) == Some((text + "\n", rest))
  {
    var line := text + "\n";
    var s := line + rest;
    assert s == text + "\n" + rest;
    var k := LineLength(s, LINE_BUF_SIZE - 1);
    assert forall i :: 0 <= i < |text| ==> s[i] == text[i];
    assert s[|text|] == '\n';
    assert k == |line|;
    assert s[..k] == line && s[k..] == rest;
  }

  /** The request stream: what `fgets` and `fread` have not yet consumed. */
  class InputStream {
    var rest: string

    constructor (data: string)
      ensures rest == data
    {
      rest := data;
    }

    /** `fgets(buf, LINE_BUF_SIZE, in)`. */
    method GetLine() returns (line: Option<string>)
      modifies this
      ensures FGets(old(rest)).None? ==> line.None? && rest == old(rest)
      ensures FGets(old(rest)).Some? ==>
        line == Some(FGets(old(rest)).value.0) && rest == FGets(old(rest)).value.1
    {
      match FGets(rest)
      case None => line := None;
      case Some((l, r)) => line := Some(l); rest := r;
    }

    /** `fread(buf, n, 1, in)`: one item of `n` octets, or nothing when the
        input ends first (what was there is consumed all the same). */
    method ReadItem(n: nat) returns (item: Option<string>)
      modifies this
      ensures n <= |old(rest)| ==> item == Some(old(rest)[..n]) && rest == old(rest)[n..]
      ensures n > |old(rest)| ==> item.None? && rest == []
    {
      if n <= |rest| {
        item := Some(rest[..n]);
        rest := rest[n..];
      } else {
        item := None;
        rest := [];
      }
    }
  }

  /** The response stream: everything written to it so far, in order. */
  class OutputStream {
    var written: string

    constructor ()
      ensures written == []
    {
      written := [];
    }

    /** One `fprintf` or `fwrite`; the stream always accepts the octets. */
    method Write(s: string)
      modifies this
      ensures written == old(written) + s
    {
      written := written + s;
    }
  }
}
