/**
 * `_fix_eols`: the line-ending normalisation applied to a message's bytes
 * before it is handed to the relay.
 */
module Eols {

  predicate IsEol(c: char) {
    c == '\r' || c == '\n'
  }

  /**
   * Replaces every `\r\n`, every lone `\n` and every lone `\r` by `\r\n`.
   * The regular expression `\r\n|\n|\r` is tried left to right at each
   * position, so a `\r` directly followed by `\n` is one line break.
   */
  function FixEols(s: string): string
    decreases |s|
  {
    if s == [] then []
    else if |s| >= 2 && s[0] == '\r' && s[1] == '\n' then "\r\n" + FixEols(s[2..])
    else if IsEol(s[0]) then "\r\n" + FixEols(s[1..])
    else [s[0]] + FixEols(s[1..])
  }

  /** Every CR is followed by an LF and every LF is preceded by a CR. */
  ghost predicate CrlfOnly(s: string) {
    && (forall i :: 0 <= i < |s| && s[i] == '\r' ==> i + 1 < |s| && s[i + 1] == '\n')
    && (forall i :: 0 <= i < |s| && s[i] == '\n' ==> 0 < i && s[i - 1] == '\r')
  }

  /** The characters of `s` that are not line-break characters, in order. */
  function Text(s: string): string {
    if s == [] then []
    else (if IsEol(s[0]) then [] else [s[0]]) + Text(s[1..])
  }

  /** How many line breaks the pattern `\r\n|\n|\r` finds in `s`. */
  function Breaks(s: string): nat
    decreases |s|
  {
    if s == [] then 0
    else if |s| >= 2 && s[0] == '\r' && s[1] == '\n' then 1 + Breaks(s[2..])
    else if IsEol(s[0]) then 1 + Breaks(s[1..])
    else Breaks(s[1..])
  }

  /** The number of LF characters of `s`. */
  function LineFeeds(s: string): nat {
    if s == [] then 0 else (if s[0] == '\n' then 1 else 0) + LineFeeds(s[1..])
  }

  lemma CrlfOnlyPrepend(c: char, t: string)
    requires CrlfOnly(t) && !IsEol(c)
    ensures CrlfOnly([c] + t)
  {
    var u := [c] + t;
    forall i | 0 <= i < |u| && u[i] == '\r' ensures i + 1 < |u| && u[i + 1] == '\n' {
      assert u[i] == t[i - 1];
    }
    forall i | 0 <= i < |u| && u[i] == '\n' ensures 0 < i && u[i - 1] == '\r' {
      assert u[i] == t[i - 1];
      if i > 1 {
        assert u[i - 1] == t[i - 2];
      }
    }
  }

  lemma CrlfOnlyPrependCrlf(t: string)
    requires CrlfOnly(t)
    ensures CrlfOnly("\r\n" + t)
  {
    var u := "\r\n" + t;
    forall i | 0 <= i < |u| && u[i] == '\r' ensures i + 1 < |u| && u[i + 1] == '\n' {
      if i >= 2 {
        assert u[i] == t[i - 2];
      }
    }
    forall i | 0 <= i < |u| && u[i] == '\n' ensures 0 < i && u[i - 1] == '\r' {
      if i >= 2 {
        assert u[i] == t[i - 2];
        if i > 2 {
          assert u[i - 1] == t[i - 3];
        }
      }
    }
  }

  /** The output has no bare CR and no bare LF. */
  lemma {:induction false} FixEolsIsCrlfOnly(s: string)
    ensures CrlfOnly(FixEols(s))
    decreases |s|
  {
    if s == [] {
    } else if |s| >= 2 && s[0] == '\r' && s[1] == '\n' {
      FixEolsIsCrlfOnly(s[2..]);
      CrlfOnlyPrependCrlf(FixEols(s[2..]));
    } else if IsEol(s[0]) {
      FixEolsIsCrlfOnly(s[1..]);
      CrlfOnlyPrependCrlf(FixEols(s[1..]));
    } else {
      FixEolsIsCrlfOnly(s[1..]);
      CrlfOnlyPrepend(s[0], FixEols(s[1..]));
    }
  }

  /** Text already in CRLF form comes back unchanged. */
  lemma {:induction false} FixEolsKeepsCrlfOnly(s: string)
    requires CrlfOnly(s)
    ensures FixEols(s) == s
    decreases |s|
  {
    if s != [] {
      if s[0] == '\r' {
        assert s[1] == '\n';
        assert CrlfOnly(s[2..]) by {
          var t := s[2..];
          forall i | 0 <= i < |t| && t[i] == '\n' ensures 0 < i && t[i - 1] == '\r' {
            assert s[i + 2] == '\n';
          }
        }
        FixEolsKeepsCrlfOnly(s[2..]);
        assert s == "\r\n" + s[2..];
      } else {
        assert s[0] != '\n';
        assert CrlfOnly(s[1..]) by {
          var t := s[1..];
          forall i | 0 <= i < |t| && t[i] == '\n' ensures 0 < i && t[i - 1] == '\r' {
            assert s[i + 1] == '\n';
          }
        }
        FixEolsKeepsCrlfOnly(s[1..]);
        assert s == [s[0]] + s[1..];
      }
    }
  }

  /** Applying `_fix_eols` twice gives the same result as applying it once. */
  lemma FixEolsIdempotent(s: string)
    ensures FixEols(FixEols(s)) == FixEols(s)
  {
    FixEolsIsCrlfOnly(s);
    FixEolsKeepsCrlfOnly(FixEols(s));
  }

  lemma TextAppend(a: string, b: string)
    ensures Text(a + b) == Text(a) + Text(b)
  {
    if a != [] {
      assert (a + b)[1..] == a[1..] + b;
      TextAppend(a[1..], b);
    } else {
      assert a + b == b;
    }
  }

  lemma LineFeedsAppend(a: string, b: string)
    ensures LineFeeds(a + b) == LineFeeds(a) + LineFeeds(b)
  {
    if a != [] {
      assert (a + b)[1..] == a[1..] + b;
      LineFeedsAppend(a[1..], b);
    } else {
      assert a + b == b;
    }
  }

  /**
   * Only line breaks change: the other characters are kept in order, and
   * every line break found in the input becomes exactly one CRLF.
   */
  lemma {:induction false} FixEolsKeepsLines(s: string)
    ensures Text(FixEols(s)) == Text(s)
    ensures LineFeeds(FixEols(s)) == Breaks(s)
    decreases |s|
  {
    if s == [] {
    } else if |s| >= 2 && s[0] == '\r' && s[1] == '\n' {
      FixEolsKeepsLines(s[2..]);
      TextAppend("\r\n", FixEols(s[2..]));
      LineFeedsAppend("\r\n", FixEols(s[2..]));
      assert Text(s) == Text(s[2..]) by {
        assert s[1..][1..] == s[2..];
      }
    } else if IsEol(s[0]) {
      FixEolsKeepsLines(s[1..]);
      TextAppend("\r\n", FixEols(s[1..]));
      LineFeedsAppend("\r\n", FixEols(s[1..]));
    } else {
      FixEolsKeepsLines(s[1..]);
      TextAppend([s[0]], FixEols(s[1..]));
      LineFeedsAppend([s[0]], FixEols(s[1..]));
    }
  }
}
