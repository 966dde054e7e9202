/** Shared vocabulary of the handlers: optional values, handler results,
    document ids and the string operations applied to request fields. */
module Base {

  datatype Option<+T> = None | Some(value: T)

  /** What a request handler sends back: the response data, or the HTTP
      status of the error that reaches the client. */
  datatype Result<+T> = Ok(value: T) | Err(status: int)

  const BadRequest: int := 400
  const Unauthorized: int := 401
  const Forbidden: int := 403
  const NotFound: int := 404
  const Conflict: int := 409
  const InternalError: int := 500

  /** Document ids (ObjectIds) are opaque; they are only compared. */
  type Id = nat

  /** A route or query parameter that should name a document: either
      `isValidObjectId` accepted it, and it denotes `id`, or it did not. */
  datatype IdArg = Parsed(id: Id) | Invalid

  /** JavaScript's `!x` on an optional string field: absent or empty. */
  predicate Falsy(x: Option<string>)
  {
    x.None? || x.value == ""
  }

  /** JavaScript's `x?.trim() === ""`: present and blank. An absent field
      is not blank. */
  predicate Blank(x: Option<string>)
  {
    x.Some? && Trim(x.value) == ""
  }

  /** A field is blank exactly when it is present and made of spaces only. */
  lemma BlankIffAllSpace(x: Option<string>)
    ensures Blank(x) <==> x.Some? && forall i :: 0 <= i < |x.value| ==> IsSpace(x.value[i])
  {
    if x.Some? {
      TrimEmptyIffAllSpace(x.value);
    }
  }

  /** The two emptiness tests of the handlers differ: an empty string is
      both falsy and blank, an absent field is falsy but not blank, and a
      string of spaces is blank but not falsy. */
  lemma FalsyAndBlank(x: Option<string>)
    ensures x.Some? && Falsy(x) ==> Blank(x)
    ensures x.None? ==> Falsy(x) && !Blank(x)
    ensures x == Some(" ") ==> Blank(x) && !Falsy(x)
  {
    assert Trim(" ") == "" by {
      assert IsSpace(" "[0]);
      assert TrimStart(" ") == TrimStart(" "[1..]) == "";
    }
  }

  /** The characters `String.prototype.trim` removes: WhiteSpace and
      LineTerminator of ECMAScript. */
  predicate IsSpace(c: char)
  {
    || c == '\t' || c == '\n' || c == '\U{000B}' || c == '\U{000C}' || c == '\r'
    || c == ' ' || c == '\U{00A0}' || c == '\U{1680}'
    || ('\U{2000}' <= c <= '\U{200A}')
    || c == '\U{2028}' || c == '\U{2029}' || c == '\U{202F}' || c == '\U{205F}'
    || c == '\U{3000}' || c == '\U{FEFF}'
  }

  /** Drops the longest all-space prefix. */
  function TrimStart(s: string): (r: string)
    ensures |r| <= |s| && r == s[|s| - |r|..]
    ensures forall i :: 0 <= i < |s| - |r| ==> IsSpace(s[i])
    ensures r == [] || !IsSpace(r[0])
  {
    if |s| > 0 && IsSpace(s[0]) then TrimStart(s[1..]) else s
  }

  /** Drops the longest all-space suffix. */
  function TrimEnd(s: string): (r: string)
    ensures |r| <= |s| && r == s[..|r|]
    ensures forall i :: |r| <= i < |s| ==> IsSpace(s[i])
    ensures r == [] || !IsSpace(r[|r| - 1])
  {
    if |s| > 0 && IsSpace(s[|s| - 1]) then TrimEnd(s[..|s| - 1]) else s
  }

  /** `String.prototype.trim`. */
  function Trim(s: string): string
  {
    TrimEnd(TrimStart(s))
  }

  /** Trim leaves the slice of `s` that has spaces only around it and
      neither starts nor ends with a space. */
  lemma TrimIsPaddedSlice(s: string)
    ensures var r := Trim(s);
            && (r == [] || (!IsSpace(r[0]) && !IsSpace(r[|r| - 1])))
            && exists k :: PaddedAt(s, r, k)
  {
    var t := TrimStart(s);
    var r := TrimEnd(t);
    var k := |s| - |t|;
    assert r == s[k..k + |r|];
    forall i | k + |r| <= i < |s| ensures IsSpace(s[i]) {
      assert s[i] == t[i - k];
    }
    assert r != [] ==> r[0] == t[0];
    assert PaddedAt(s, r, k);
  }

  /** `s` is `r` at offset `k` with only spaces before and after it. */
  predicate PaddedAt(s: string, r: string, k: int)
  {
    && 0 <= k <= |s| - |r| && r == s[k..k + |r|]
    && (forall i :: 0 <= i < k ==> IsSpace(s[i]))
    && (forall i :: k + |r| <= i < |s| ==> IsSpace(s[i]))
  }

  /** A string trims to "" exactly when every character of it is a space. */
  lemma TrimEmptyIffAllSpace(s: string)
    ensures Trim(s) == "" <==> forall i :: 0 <= i < |s| ==> IsSpace(s[i])
  {
    var t := TrimStart(s);
    if Trim(s) == "" {
      forall i | 0 <= i < |s| ensures IsSpace(s[i]) {
        if i >= |s| - |t| {
          assert t[i - (|s| - |t|)] == s[i];
        }
      }
    } else {
      assert t != [] && !IsSpace(t[0]);
      assert s[|s| - |t|] == t[0];
    }
  }

  /** ASCII case mapping, as `toLowerCase` does on the letters A-Z. */
  function LowerChar(c: char): char
  {
    if 'A' <= c <= 'Z' then (c as int + 32) as char else c
  }

  function Lower(s: string): (r: string)
    ensures |r| == |s|
  {
    seq(|s|, i requires 0 <= i < |s| => LowerChar(s[i]))
  }

  /** The normal form that the `lowercase` and `trim` options of the User
      schema give a stored userName or email. */
  function Normalize(s: string): string
  {
    Lower(Trim(s))
  }

  /** `toLowerCase` on ASCII leaves no upper-case letter, keeps every other
      character in place, and maps spaces to spaces and nothing else. */
  lemma LowerMapsLetters(s: string)
    ensures var r := Lower(s);
            && (forall i :: 0 <= i < |r| ==> !('A' <= r[i] <= 'Z'))
            && (forall i :: 0 <= i < |s| && !('A' <= s[i] <= 'Z') ==> r[i] == s[i])
            && (forall i :: 0 <= i < |s| ==> (IsSpace(r[i]) <==> IsSpace(s[i])))
  {
  }

  /** The stored form of a userName or email: no space at either end and
      no upper-case letter. */
  lemma NormalizeForm(s: string)
    ensures var r := Normalize(s);
            && |r| <= |s|
            && (r == [] || (!IsSpace(r[0]) && !IsSpace(r[|r| - 1])))
            && (forall i :: 0 <= i < |r| ==> !('A' <= r[i] <= 'Z'))
  {
    TrimIsPaddedSlice(s);
    LowerMapsLetters(Trim(s));
  }

  lemma LowerIdempotent(s: string)
    ensures Lower(Lower(s)) == Lower(s)
  {
  }

  lemma {:induction false} TrimStartLower(s: string)
    ensures TrimStart(Lower(s)) == Lower(TrimStart(s))
    decreases |s|
  {
    if |s| > 0 && IsSpace(s[0]) {
      assert Lower(s)[1..] == Lower(s[1..]);
      TrimStartLower(s[1..]);
    }
  }

  lemma {:induction false} TrimEndLower(s: string)
    ensures TrimEnd(Lower(s)) == Lower(TrimEnd(s))
    decreases |s|
  {
    if |s| > 0 && IsSpace(s[|s| - 1]) {
      assert Lower(s)[..|s| - 1] == Lower(s[..|s| - 1]);
      TrimEndLower(s[..|s| - 1]);
    }
  }

  /** Trimming and lower-casing commute, so the order in which the schema
      applies its two setters does not matter. */
  lemma TrimLowerCommute(s: string)
    ensures Trim(Lower(s)) == Lower(Trim(s))
  {
    TrimStartLower(s);
    TrimEndLower(TrimStart(s));
  }

  lemma {:induction false} TrimStartOfTrimmed(s: string)
    requires s == [] || !IsSpace(s[0])
    ensures TrimStart(s) == s
  {
  }

  /** Trimming twice trims no more than trimming once. */
  lemma TrimIdempotent(s: string)
    ensures Trim(Trim(s)) == Trim(s)
  {
    var t := Trim(s);
    var ts := TrimStart(s);
    assert TrimStart(ts) == ts;
    assert TrimEnd(t) == t;
    assert TrimStart(t) == t by {
      if t != [] {
        assert t[0] == ts[0];
      }
    }
  }

  /** Normalizing is idempotent, and lower-casing before normalizing (as the
      registration handler does) changes nothing. */
  lemma NormalizeIdempotent(s: string)
    ensures Normalize(Normalize(s)) == Normalize(s)
    ensures Normalize(Lower(s)) == Normalize(s)
  {
    var t := Trim(s);
    TrimIdempotent(s);
    TrimLowerCommute(t);
    LowerIdempotent(t);
    TrimLowerCommute(s);
  }
}
