/** Message framing on the classical stream: every logical message is sent
    followed by the delimiter "EOF", and a received chunk is cut back into
    messages with Python's `str.split`. */
module Framing {

  /** The frame delimiter. */
  const EOF: string := "EOF"

  /** Python's `"EOF" in s`. */
  predicate ContainsEOF(s: string)
    decreases |s|
  {
    |s| >= 3 && (s[..3] == EOF || ContainsEOF(s[1..]))
  }

  /** No message of `ms` contains the delimiter, so each can be framed. */
  predicate Framable(ms: seq<string>)
  {
    forall i :: 0 <= i < |ms| ==> !ContainsEOF(ms[i])
  }

  /** The pieces of `ps` glued back together with the delimiter between them. */
  function Join(ps: seq<string>): string
    requires |ps| >= 1
    decreases |ps|
  {
    if |ps| == 1 then ps[0] else ps[0] + EOF + Join(ps[1..])
  }

  /** Python's `s.split("EOF")`: the pieces between the non-overlapping
      occurrences of the delimiter, found from left to right. Splitting and
      joining again gives `s` back, and no piece contains the delimiter. */
  function Split(s: string): (r: seq<string>)
    ensures |r| >= 1
    ensures Join(r) == s
    ensures Framable(r)
    ensures |r| == 1 <==> !ContainsEOF(s)
    decreases |s|
  {
    if |s| < 3 then [s]
    else if s[..3] == EOF then [""] + Split(s[3..])
    else
      var rest := Split(s[1..]);
      PrependKeepsFree(s, rest);
      [[s[0]] + rest[0]] + rest[1..]
  }

  /** The step of `Split` that grows the first piece by one character keeps
      the round trip, keeps every piece free of the delimiter, and has more
      than one piece exactly when `s` holds a delimiter. */
  lemma PrependKeepsFree(s: string, rest: seq<string>)
    requires |s| >= 3 && s[..3] != EOF
    requires |rest| >= 1 && Join(rest) == s[1..] && Framable(rest)
    ensures Join([[s[0]] + rest[0]] + rest[1..]) == s
    ensures Framable([[s[0]] + rest[0]] + rest[1..])
    ensures |rest| == 1 <==> !ContainsEOF(s)
  {
    PrependJoin(s, rest);
    PrependFramable(s, rest);
    PrependCountsEOF(s, rest);
  }

  /** Growing the first piece by the first character restores `s`. */
  lemma PrependJoin(s: string, rest: seq<string>)
    requires |s| >= 1 && |rest| >= 1 && Join(rest) == s[1..]
    ensures Join([[s[0]] + rest[0]] + rest[1..]) == s
  {
    JoinReplaceHead(rest, [s[0]] + rest[0]);
    ConsHead(s, rest[0], JoinTail(rest));
  }

  /** A string is its first character in front of its tail. */
  lemma ConsHead(s: string, p: string, t: string)
    requires |s| >= 1 && s[1..] == p + t
    ensures s == ([s[0]] + p) + t
  {
    assert s == [s[0]] + s[1..];
  }

  /** The grown first piece is still free of the delimiter. */
  lemma PrependFramable(s: string, rest: seq<string>)
    requires |s| >= 3 && s[..3] != EOF
    requires |rest| >= 1 && Join(rest) == s[1..] && Framable(rest)
    ensures Framable([[s[0]] + rest[0]] + rest[1..])
  {
    PrefixOf(rest);
    FirstPieceFree(s, rest[0]);
    FramableCons([s[0]] + rest[0], rest);
  }

  /** Replacing the first message by a delimiter-free one keeps a list
      framable. */
  lemma FramableCons(x: string, ps: seq<string>)
    requires !ContainsEOF(x) && |ps| >= 1 && Framable(ps)
    ensures Framable([x] + ps[1..])
  {
    var r := [x] + ps[1..];
    forall i | 1 <= i < |r| ensures r[i] == ps[i] {
    }
  }

  /** `s`, not starting with the delimiter, holds one exactly when its tail
      splits into more than one piece. */
  lemma PrependCountsEOF(s: string, rest: seq<string>)
    requires |s| >= 3 && s[..3] != EOF
    requires |rest| >= 1 && Join(rest) == s[1..] && Framable(rest)
    ensures |rest| == 1 <==> !ContainsEOF(s)
  {
    if |rest| > 1 {
      EOFAfterPrefix(s[1..], rest);
    } else {
      assert s[1..] == rest[0];
    }
  }

  /** Everything a joined string holds after its first piece. */
  function JoinTail(ps: seq<string>): string
    requires |ps| >= 1
  {
    if |ps| == 1 then "" else EOF + Join(ps[1..])
  }

  /** Replacing the first piece replaces the head of the joined string. */
  lemma JoinReplaceHead(ps: seq<string>, x: string)
    requires |ps| >= 1
    ensures Join(ps) == ps[0] + JoinTail(ps)
    ensures Join([x] + ps[1..]) == x + JoinTail(ps)
  {
    JoinHead(ps);
    JoinHead([x] + ps[1..]);
    assert ([x] + ps[1..])[1..] == ps[1..];
  }

  /** A joined string is its first piece followed by its tail. */
  lemma JoinHead(ps: seq<string>)
    requires |ps| >= 1
    ensures Join(ps) == ps[0] + JoinTail(ps)
  {
    if |ps| > 1 {
      assert ps[0] + EOF + Join(ps[1..]) == ps[0] + (EOF + Join(ps[1..]));
    } else {
      assert ps[0] + "" == ps[0];
    }
  }

  /** One more character in front of a delimiter-free prefix yields no
      delimiter when the string does not start with one. */
  lemma FirstPieceFree(s: string, p: string)
    requires |s| >= 3 && s[..3] != EOF
    requires |p| <= |s| - 1 && s[1..][..|p|] == p && !ContainsEOF(p)
    ensures !ContainsEOF([s[0]] + p)
  {
    var first := [s[0]] + p;
    assert first[1..] == p;
    if |first| >= 3 {
      assert first[..3] == s[..3];
    }
  }

  /** The first piece is a prefix of the joined string. */
  lemma PrefixOf(ps: seq<string>)
    requires |ps| >= 1
    ensures |ps[0]| <= |Join(ps)| && Join(ps)[..|ps[0]|] == ps[0]
  {
    if |ps| > 1 {
      assert Join(ps) == ps[0] + (EOF + Join(ps[1..]));
    }
  }

  /** Joining two or more pieces puts a delimiter into the string. */
  lemma EOFAfterPrefix(s: string, ps: seq<string>)
    requires |ps| > 1 && Join(ps) == s
    ensures ContainsEOF(s)
  {
    assert s == ps[0] + EOF + Join(ps[1..]);
    ContainsAt(s, |ps[0]|);
  }

  /** A delimiter starting at position `k` is an occurrence of it. */
  lemma {:induction false} ContainsAt(s: string, k: nat)
    requires k + 3 <= |s| && s[k..k + 3] == EOF
    ensures ContainsEOF(s)
    decreases k
  {
    if k > 0 {
      assert s[1..][k - 1..k + 2] == s[k..k + 3];
      ContainsAt(s[1..], k - 1);
    } else {
      assert s[..3] == s[0..3];
    }
  }

  /** The delimiter starts at position `k` of `s`. */
  predicate OccursAt(s: string, k: int)
  {
    0 <= k && k + 3 <= |s| && s[k..k + 3] == EOF
  }

  /** `ContainsEOF` is Python's substring test: some position starts the
      delimiter. */
  lemma {:induction false} ContainsEOFIsOccurrence(s: string)
    ensures ContainsEOF(s) <==> exists k :: OccursAt(s, k)
    decreases |s|
  {
    if exists k :: OccursAt(s, k) {
      var k :| OccursAt(s, k);
      ContainsAt(s, k);
    } else if ContainsEOF(s) {
      if s[..3] == EOF {
        assert s[0..3] == EOF;
        assert OccursAt(s, 0);
      } else {
        ContainsEOFIsOccurrence(s[1..]);
        var k :| OccursAt(s[1..], k);
        assert s[k + 1..k + 4] == s[1..][k..k + 3];
        assert OccursAt(s, k + 1);
      }
    }
  }

  /** `send_single_msg`: what goes on the wire for one message. */
  function Frame(m: string): string
  {
    m + EOF
  }

  /** A delimiter-free message, once framed, is received back as exactly
      itself. */
  lemma FrameRoundTrip(m: string)
    requires !ContainsEOF(m)
    ensures Messages(Frame(m)) == [m]
  {
    SplitFrame(m, "");
    assert m + EOF + "" == m + EOF;
  }

  /** The frames of `ms`, back to back, as one stream of text; its
      properties are `FrameAllIsJoin` and `MessagesOfFrames` below. */
  function FrameAll(ms: seq<string>): string
    decreases |ms|
  {
    if |ms| == 0 then "" else Frame(ms[0]) + FrameAll(ms[1..])
  }

  /** `chunk.split(EOF)[:-1]`: the messages of one received chunk; the piece
      after the last delimiter (empty for a well-framed chunk) is dropped. */
  function Messages(chunk: string): (ms: seq<string>)
    ensures Framable(ms)
    ensures |ms| == 0 <==> !ContainsEOF(chunk)
  {
    var pieces := Split(chunk);
    pieces[..|pieces| - 1]
  }

  /** A delimiter-free string is a single piece. */
  lemma SplitFree(m: string)
    requires !ContainsEOF(m)
    ensures Split(m) == [m]
  {
    var r := Split(m);
    assert Join(r) == r[0];
  }

  /** A delimiter-free message followed by the delimiter is cut off as the
      first piece, whatever comes after it. */
  lemma {:induction false} SplitFrame(m: string, rest: string)
    requires !ContainsEOF(m)
    ensures Split(m + EOF + rest) == [m] + Split(rest)
    decreases |m|
  {
    var s := m + EOF + rest;
    if |m| == 0 {
      assert s[..3] == EOF && s[3..] == rest;
    } else {
      assert s[..3] != EOF by {
        if |m| >= 3 {
          assert s[..3] == m[..3];
        } else {
          assert s[|m|] == 'E';
        }
      }
      assert !ContainsEOF(m[1..]);
      assert s[1..] == m[1..] + EOF + rest;
      SplitFrame(m[1..], rest);
      assert [s[0]] + m[1..] == m;
    }
  }

  /** Splitting undoes joining when no piece holds the delimiter. */
  lemma {:induction false} SplitJoin(ps: seq<string>)
    requires |ps| >= 1 && Framable(ps)
    ensures Split(Join(ps)) == ps
    decreases |ps|
  {
    if |ps| == 1 {
      SplitFree(ps[0]);
    } else {
      assert Framable(ps[1..]) by {
        forall i | 0 <= i < |ps| - 1 ensures !ContainsEOF(ps[1..][i]) {
          assert ps[1..][i] == ps[i + 1];
        }
      }
      SplitJoin(ps[1..]);
      SplitFrame(ps[0], Join(ps[1..]));
      assert [ps[0]] + ps[1..] == ps;
    }
  }

  /** The frames of `ms` followed by an unfinished tail are the pieces of
      `ms + [tail]` joined. */
  lemma {:induction false} FrameAllIsJoin(ms: seq<string>, tail: string)
    ensures FrameAll(ms) + tail == Join(ms + [tail])
    decreases |ms|
  {
    if |ms| > 0 {
      FrameAllIsJoin(ms[1..], tail);
      assert (ms + [tail])[1..] == ms[1..] + [tail];
      assert FrameAll(ms) + tail == ms[0] + EOF + (FrameAll(ms[1..]) + tail);
    }
  }

  /** Framing round trip for one chunk: a chunk made of the frames of `ms`,
      possibly followed by the start of a frame that has not yet arrived,
      yields exactly `ms` in order; that unfinished tail is discarded. */
  lemma MessagesOfFrames(ms: seq<string>, tail: string)
    requires Framable(ms) && !ContainsEOF(tail)
    ensures Messages(FrameAll(ms) + tail) == ms
  {
    FrameAllIsJoin(ms, tail);
    assert Framable(ms + [tail]) by {
      forall i | 0 <= i < |ms| + 1 ensures !ContainsEOF((ms + [tail])[i]) {
        if i < |ms| { assert (ms + [tail])[i] == ms[i]; }
      }
    }
    SplitJoin(ms + [tail]);
    assert (ms + [tail])[..|ms|] == ms;
  }
}
