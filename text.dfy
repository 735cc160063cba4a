/**
 * The string handling the client and the server agree on: Java's trim and
 * split, the '|' framing of event messages, and decimal integers as the
 * initial message and the settings screen write and read them.
 */
module Text {
  import opened Outcomes

  /** The separator the server puts after every queued message. */
  const DELIMITER: char := '|'
  const INT_MAX: int := 0x7fff_ffff
  const INT_MIN: int := -0x8000_0000

  /** String.trim counts every char up to U+0020 as white space (NUL padding included). */
  predicate IsSpace(c: char) { c <= ' ' }

  /** `s.trim().isEmpty()`. */
  predicate IsBlank(s: string) { forall i :: 0 <= i < |s| ==> IsSpace(s[i]) }

  // ---------------------------------------------------------------- trim

  function LeadingSpaces(s: string): (k: nat)
    ensures k <= |s|
    ensures forall i :: 0 <= i < k ==> IsSpace(s[i])
    ensures k < |s| ==> !IsSpace(s[k])
  {
    if s != [] && IsSpace(s[0]) then 1 + LeadingSpaces(s[1..]) else 0
  }

  function TrailingSpaces(s: string): (k: nat)
    ensures k <= |s|
    ensures forall i :: |s| - k <= i < |s| ==> IsSpace(s[i])
    ensures k < |s| ==> !IsSpace(s[|s| - 1 - k])
  {
    if s != [] && IsSpace(s[|s| - 1]) then 1 + TrailingSpaces(s[..|s| - 1]) else 0
  }

  /** String.trim: drops the white space at both ends. */
  function Trim(s: string): string
  {
    var t := s[LeadingSpaces(s)..];
    t[..|t| - TrailingSpaces(t)]
  }

  /** A trimmed string is empty exactly when the original is all white space. */
  lemma TrimEmptyIffBlank(s: string)
    ensures Trim(s) == [] <==> IsBlank(s)
  {
    var k := LeadingSpaces(s);
    var t := s[k..];
    if IsBlank(s) {
      assert k == |s|;
    } else {
      var i :| 0 <= i < |s| && !IsSpace(s[i]);
      assert k <= i;
      assert t[0] == s[k];
      assert TrailingSpaces(t) < |t|;
    }
  }

  lemma {:induction false} TrailingSpacesOfPadding(s: string, pad: string)
    requires s != [] && !IsSpace(s[|s| - 1])
    requires IsBlank(pad)
    ensures TrailingSpaces(s + pad) == |pad|
    decreases |pad|
  {
    if pad == [] {
      assert s + pad == s;
    } else {
      var u := s + pad;
      assert u[|u| - 1] == pad[|pad| - 1];
      assert u[..|u| - 1] == s + pad[..|pad| - 1];
      TrailingSpacesOfPadding(s, pad[..|pad| - 1]);
    }
  }

  /** Trimming removes white-space padding after a text that has none at its ends. */
  lemma TrimPadded(s: string, pad: string)
    requires s == [] || (!IsSpace(s[0]) && !IsSpace(s[|s| - 1]))
    requires IsBlank(pad)
    ensures Trim(s + pad) == s
  {
    if s == [] {
      assert s + pad == pad;
      TrimEmptyIffBlank(pad);
    } else {
      var u := s + pad;
      assert u[0] == s[0];
      assert LeadingSpaces(u) == 0;
      assert u[0..] == u;
      TrailingSpacesOfPadding(s, pad);
      assert u[..|u| - |pad|] == s;
    }
  }

  // ---------------------------------------------------------------- split and join

  /** Every piece between delimiters, empty pieces included, in order. */
  function Split(s: string, d: char): (parts: seq<string>)
    ensures |parts| >= 1
    ensures forall i :: 0 <= i < |parts| ==> d !in parts[i]
  {
    if s == [] then [[]]
    else
      var rest := Split(s[1..], d);
      if s[0] == d then [[]] + rest else [[s[0]] + rest[0]] + rest[1..]
  }

  /** The pieces glued back together with d between neighbours. */
  function Join(parts: seq<string>, d: char): string
    requires |parts| >= 1
  {
    if |parts| == 1 then parts[0] else parts[0] + [d] + Join(parts[1..], d)
  }

  lemma {:induction false} SplitWithoutDelimiter(s: string, d: char)
    requires d !in s
    ensures Split(s, d) == [s]
  {
    if s != [] {
      SplitWithoutDelimiter(s[1..], d);
      assert [s[0]] + s[1..] == s;
    }
  }

  lemma {:induction false} SplitAfterPiece(p: string, d: char, rest: string)
    requires d !in p
    ensures Split(p + [d] + rest, d) == [p] + Split(rest, d)
  {
    var s := p + [d] + rest;
    if p == [] {
      assert s == [d] + rest;
      assert s[1..] == rest;
    } else {
      assert s[0] == p[0];
      assert s[1..] == p[1..] + [d] + rest;
      SplitAfterPiece(p[1..], d, rest);
      assert [p[0]] + p[1..] == p;
    }
  }

  /** Splitting undoes joining, for pieces that hold no delimiter. */
  lemma {:induction false} SplitJoin(parts: seq<string>, d: char)
    requires |parts| >= 1
    requires forall i :: 0 <= i < |parts| ==> d !in parts[i]
    ensures Split(Join(parts, d), d) == parts
  {
    if |parts| == 1 {
      SplitWithoutDelimiter(parts[0], d);
    } else {
      SplitAfterPiece(parts[0], d, Join(parts[1..], d));
      SplitJoin(parts[1..], d);
    }
  }

  /** Joining undoes splitting: no character is lost or added. */
  lemma {:induction false} JoinSplit(s: string, d: char)
    ensures Join(Split(s, d), d) == s
  {
    if s != [] {
      JoinSplit(s[1..], d);
      var rest := Split(s[1..], d);
      if s[0] == d {
        assert ([[]] + rest)[1..] == rest;
        assert [d] + s[1..] == s;
      } else {
        var parts := [[s[0]] + rest[0]] + rest[1..];
        if |rest| == 1 {
          assert Join(parts, d) == [s[0]] + rest[0];
        } else {
          assert parts[1..] == rest[1..];
          assert Join(parts, d) == [s[0]] + rest[0] + [d] + Join(rest[1..], d);
        }
        assert [s[0]] + s[1..] == s;
      }
    }
  }

  /** Java's String.split drops the empty pieces at the end. */
  function DropTrailingEmpty(parts: seq<string>): (r: seq<string>)
    ensures |r| <= |parts| && r == parts[..|r|]
    ensures r == [] || r[|r| - 1] != []
    ensures forall i :: |r| <= i < |parts| ==> parts[i] == []
  {
    if parts != [] && parts[|parts| - 1] == [] then DropTrailingEmpty(parts[..|parts| - 1]) else parts
  }

  /** `s.split("\\|")`: the whole string when the delimiter is absent, else the pieces without trailing empty ones. */
  function JavaSplit(s: string, d: char): seq<string>
  {
    if d !in s then [s] else DropTrailingEmpty(Split(s, d))
  }

  /** The pieces the client does not skip. */
  function DropBlank(parts: seq<string>): (r: seq<string>)
    ensures forall i :: 0 <= i < |r| ==> !IsBlank(r[i])
  {
    if parts == [] then []
    else (if IsBlank(parts[0]) then [] else [parts[0]]) + DropBlank(parts[1..])
  }

  /** GameClient.handleMassage's view of one received chunk: its non-blank pieces, in order. */
  function Messages(chunk: string): seq<string>
  {
    DropBlank(JavaSplit(chunk, DELIMITER))
  }

  /** GameServer.handleWrite's output for a drained queue: every message followed by the delimiter. */
  function Frame(msgs: seq<string>): string
  {
    if msgs == [] then [] else msgs[0] + [DELIMITER] + Frame(msgs[1..])
  }

  /** Draining one more message extends the frame by that message and its delimiter. */
  lemma {:induction false} FrameSnoc(msgs: seq<string>, m: string)
    ensures Frame(msgs + [m]) == Frame(msgs) + m + [DELIMITER]
  {
    if msgs != [] {
      FrameSnoc(msgs[1..], m);
      assert (msgs + [m])[1..] == msgs[1..] + [m];
    }
  }

  lemma {:induction false} DropBlankAppend(a: seq<string>, b: seq<string>)
    ensures DropBlank(a + b) == DropBlank(a) + DropBlank(b)
  {
    if a == [] {
      assert a + b == b;
    } else {
      assert (a + b)[0] == a[0];
      assert (a + b)[1..] == a[1..] + b;
      DropBlankAppend(a[1..], b);
    }
  }

  /** Looking at one more piece adds it exactly when it is not blank. */
  lemma DropBlankSnoc(parts: seq<string>, i: nat)
    requires i < |parts|
    ensures DropBlank(parts[..i + 1]) == DropBlank(parts[..i]) + (if IsBlank(parts[i]) then [] else [parts[i]])
  {
    assert parts[..i + 1] == parts[..i] + [parts[i]];
    DropBlankAppend(parts[..i], [parts[i]]);
    assert DropBlank([parts[i]]) == (if IsBlank(parts[i]) then [] else [parts[i]]) + DropBlank([]);
  }

  lemma {:induction false} DropBlankKeepsNonBlank(msgs: seq<string>)
    requires forall i :: 0 <= i < |msgs| ==> !IsBlank(msgs[i])
    ensures DropBlank(msgs) == msgs
  {
    if msgs != [] {
      DropBlankKeepsNonBlank(msgs[1..]);
    }
  }

  /** Java's dropping of trailing empty pieces makes no difference once blanks are skipped. */
  lemma {:induction false} DropBlankIgnoresTrailingEmpty(parts: seq<string>)
    ensures DropBlank(DropTrailingEmpty(parts)) == DropBlank(parts)
    decreases |parts|
  {
    if parts != [] && parts[|parts| - 1] == [] {
      var init := parts[..|parts| - 1];
      DropBlankIgnoresTrailingEmpty(init);
      assert parts == init + [[]];
      DropBlankAppend(init, [[]]);
      assert DropBlank([[]]) == [];
    }
  }

  /** The client's pieces are the non-blank pieces of a plain split. */
  lemma MessagesOfPlainSplit(chunk: string)
    ensures Messages(chunk) == DropBlank(Split(chunk, DELIMITER))
  {
    if DELIMITER !in chunk {
      SplitWithoutDelimiter(chunk, DELIMITER);
    } else {
      DropBlankIgnoresTrailingEmpty(Split(chunk, DELIMITER));
    }
  }

  lemma {:induction false} FrameIsJoin(msgs: seq<string>, tail: string)
    ensures Frame(msgs) + tail == Join(msgs + [tail], DELIMITER)
  {
    if msgs != [] {
      FrameIsJoin(msgs[1..], tail);
      assert (msgs + [tail])[1..] == msgs[1..] + [tail];
      assert (msgs + [tail])[0] == msgs[0];
    }
  }

  /** A framed queue with blank padding splits into the messages and the padding. */
  lemma FramedSplit(msgs: seq<string>, pad: string)
    requires forall i :: 0 <= i < |msgs| ==> DELIMITER !in msgs[i]
    requires IsBlank(pad)
    ensures Split(Frame(msgs) + pad, DELIMITER) == msgs + [pad]
  {
    var parts := msgs + [pad];
    forall i | 0 <= i < |parts|
      ensures DELIMITER !in parts[i]
    {
      if i == |msgs| {
        assert parts[i] == pad;
        assert forall j :: 0 <= j < |pad| ==> pad[j] != DELIMITER;
      }
    }
    FrameIsJoin(msgs, pad);
    SplitJoin(parts, DELIMITER);
  }

  /**
   * The framing round trip: what the server drains from a queue, read by the
   * client after any white-space padding, gives back exactly the queued
   * messages in order, provided each is non-blank and holds no delimiter.
   */
  lemma FramingRoundTrip(msgs: seq<string>, pad: string)
    requires forall i :: 0 <= i < |msgs| ==> DELIMITER !in msgs[i] && !IsBlank(msgs[i])
    requires IsBlank(pad)
    ensures Messages(Frame(msgs) + pad) == msgs
  {
    FramedSplit(msgs, pad);
    MessagesOfPlainSplit(Frame(msgs) + pad);
    DropBlankAppend(msgs, [pad]);
    DropBlankKeepsNonBlank(msgs);
    assert DropBlank([pad]) == [] by {
      assert IsBlank([pad][0]);
    }
  }

  // ---------------------------------------------------------------- decimal integers

  predicate IsDigit(c: char) { '0' <= c <= '9' }

  predicate AllDigits(s: string) { forall i :: 0 <= i < |s| ==> IsDigit(s[i]) }

  function DigitChar(d: nat): (c: char)
    requires d < 10
    ensures IsDigit(c) && c as int - '0' as int == d
  {
    ('0' as int + d) as char
  }

  /** The value of a run of decimal digits, most significant first. */
  function DigitsValue(s: string): nat
    requires AllDigits(s)
  {
    if s == [] then 0 else 10 * DigitsValue(s[..|s| - 1]) + (s[|s| - 1] as int - '0' as int)
  }

  /** String.valueOf of a non-negative int, as `"" + n` writes it. */
  function NatToString(n: nat): (s: string)
    ensures s != [] && AllDigits(s)
  {
    if n < 10 then [DigitChar(n)] else NatToString(n / 10) + [DigitChar(n % 10)]
  }

  lemma {:induction false} NatToStringValue(n: nat)
    ensures DigitsValue(NatToString(n)) == n
  {
    if n >= 10 {
      NatToStringValue(n / 10);
      var s := NatToString(n);
      assert s[..|s| - 1] == NatToString(n / 10);
    }
  }

  /** Integer.parseInt on ASCII text: an optional sign, at least one digit, and a value in int range. */
  function ParseInt(s: string): (r: Option<int>)
    ensures r.Some? ==> INT_MIN <= r.value <= INT_MAX
    ensures r.Some? ==> s != [] && AllDigits(if s[0] == '-' || s[0] == '+' then s[1..] else s)
  {
    if s == [] then None
    else
      var digits := if s[0] == '-' || s[0] == '+' then s[1..] else s;
      if digits == [] || !AllDigits(digits) then None
      else
        var v: int := if s[0] == '-' then -(DigitsValue(digits) as int) else DigitsValue(digits);
        if INT_MIN <= v <= INT_MAX then Some(v) else None
  }

  /** Printing a non-negative int and parsing it back gives the int. */
  lemma ParseNatToString(n: nat)
    requires n <= INT_MAX
    ensures ParseInt(NatToString(n)) == Some(n)
  {
    NatToStringValue(n);
  }

  /** A signless run of digits parses to its value, when in range. */
  lemma ParseDigits(s: string)
    requires s != [] && AllDigits(s) && DigitsValue(s) <= INT_MAX
    ensures ParseInt(s) == Some(DigitsValue(s))
  {
    assert IsDigit(s[0]);
  }

  // ---------------------------------------------------------------- the initial message

  /** GameServer.sendInitMessage's text: the state, the delimiter, and the joining player's hero index. */
  function InitMessage(state: string, index: nat): string
  {
    state + [DELIMITER] + NatToString(index)
  }

  /**
   * GameClient.initGame's reading of its first chunk: the state text before
   * the delimiter and the hero index after it (trimmed and parsed).
   */
  function ParseInit(chunk: string): Result<(string, int)>
  {
    var info := JavaSplit(chunk, DELIMITER);
    if |info| < 2 then Err(IndexOutOfBounds)
    else match ParseInt(Trim(info[1]))
      case None => Err(NumberFormat)
      case Some(n) => Ok((info[0], n))
  }

  /** The client reads back the state and the hero index the server sent, whatever NUL padding follows. */
  lemma InitRoundTrip(state: string, index: nat, pad: string)
    requires DELIMITER !in state
    requires index <= INT_MAX
    requires IsBlank(pad)
    ensures ParseInit(InitMessage(state, index) + pad) == Ok((state, index))
  {
    var digits := NatToString(index);
    var chunk := InitMessage(state, index) + pad;
    assert chunk == state + [DELIMITER] + (digits + pad);
    assert DELIMITER in chunk by { assert chunk[|state|] == DELIMITER; }
    assert forall i :: 0 <= i < |digits + pad| ==> (digits + pad)[i] != DELIMITER by {
      forall i | 0 <= i < |digits + pad| ensures (digits + pad)[i] != DELIMITER {
        if i < |digits| { assert IsDigit(digits[i]); } else { assert IsSpace(pad[i - |digits|]); }
      }
    }
    SplitAfterPiece(state, DELIMITER, digits + pad);
    SplitWithoutDelimiter(digits + pad, DELIMITER);
    assert Split(chunk, DELIMITER) == [state, digits + pad];
    assert JavaSplit(chunk, DELIMITER) == [state, digits + pad];
    assert IsDigit(digits[0]) && IsDigit(digits[|digits| - 1]);
    TrimPadded(digits, pad);
    ParseNatToString(index);
  }
}
