/** Application settings: the comma-separated CORS origin setting and the
    list of origins derived from it (backend/app/config.py). */
module Config {
  import opened Text

  const DefaultCorsOrigins: string := "http://localhost:3000"

  /** The pieces of a split that are kept: each stripped, empty ones dropped. */
  function StrippedNonEmpty(parts: seq<string>): (r: seq<string>)
    ensures |r| <= |parts|
  {
    if parts == [] then []
    else
      var o := Strip(parts[0]);
      (if o != "" then [o] else []) + StrippedNonEmpty(parts[1..])
  }

  /** `Settings.cors_origin_list`: `cors_origins` split on commas, each piece
      stripped, empty pieces dropped. */
  function CorsOriginList(corsOrigins: string): (origins: seq<string>)
  {
    StrippedNonEmpty(Split(corsOrigins, ','))
  }

  lemma {:induction false} StrippedNonEmptyConcat(a: seq<string>, b: seq<string>)
    ensures StrippedNonEmpty(a + b) == StrippedNonEmpty(a) + StrippedNonEmpty(b)
  {
    if a == [] {
      assert a + b == b;
    } else {
      var o := Strip(a[0]);
      var head := if o != "" then [o] else [];
      assert (a + b)[0] == a[0];
      assert (a + b)[1..] == a[1..] + b;
      assert StrippedNonEmpty(a + b) == head + StrippedNonEmpty(a[1..] + b);
      assert StrippedNonEmpty(a) == head + StrippedNonEmpty(a[1..]);
      StrippedNonEmptyConcat(a[1..], b);
      SeqAssoc(head, StrippedNonEmpty(a[1..]), StrippedNonEmpty(b));
    }
  }

  /** Every kept piece is non-empty and already stripped. */
  lemma {:induction false} StrippedNonEmptyClean(parts: seq<string>)
    ensures forall i :: 0 <= i < |StrippedNonEmpty(parts)| ==>
      StrippedNonEmpty(parts)[i] != "" && Strip(StrippedNonEmpty(parts)[i]) == StrippedNonEmpty(parts)[i]
  {
    if parts != [] {
      StrippedNonEmptyClean(parts[1..]);
      StripIdempotent(parts[0]);
      var o := Strip(parts[0]);
      var t := StrippedNonEmpty(parts[1..]);
      var head := if o != "" then [o] else [];
      var r := head + t;
      assert StrippedNonEmpty(parts) == r;
      forall i | 0 <= i < |r| ensures r[i] != "" && Strip(r[i]) == r[i] {
        if i < |head| {
          assert r[i] == o;
        } else {
          assert r[i] == t[i - |head|];
        }
      }
    }
  }

  /** A character that no input piece holds is in no kept piece. */
  lemma {:induction false} StrippedNonEmptyAvoids(parts: seq<string>, c: char)
    requires forall j :: 0 <= j < |parts| ==> c !in parts[j]
    ensures forall i :: 0 <= i < |StrippedNonEmpty(parts)| ==> c !in StrippedNonEmpty(parts)[i]
  {
    if parts != [] {
      forall j | 0 <= j < |parts[1..]| ensures c !in parts[1..][j] {
        assert parts[1..][j] == parts[j + 1];
      }
      StrippedNonEmptyAvoids(parts[1..], c);
      StripSlice(parts[0]);
      var o := Strip(parts[0]);
      assert c !in parts[0];
      assert c !in o;
      var t := StrippedNonEmpty(parts[1..]);
      var head := if o != "" then [o] else [];
      var r := head + t;
      assert StrippedNonEmpty(parts) == r;
      forall i | 0 <= i < |r| ensures c !in r[i] {
        if i < |head| {
          assert r[i] == o;
        } else {
          assert r[i] == t[i - |head|];
        }
      }
    }
  }

  /** No origin in the list is empty, carries surrounding whitespace or holds
      a comma. */
  lemma CorsOriginsClean(corsOrigins: string)
    ensures forall i :: 0 <= i < |CorsOriginList(corsOrigins)| ==>
      var o := CorsOriginList(corsOrigins)[i];
      && o != ""
      && Strip(o) == o
      && ',' !in o
  {
    StrippedNonEmptyClean(Split(corsOrigins, ','));
    SplitJoinsBack(corsOrigins, ',');
    StrippedNonEmptyAvoids(Split(corsOrigins, ','), ',');
  }

  /** The origins keep the order in which the setting lists them: a setting
      made of two comma-joined halves gives the origins of the first half
      followed by those of the second. */
  lemma CorsOrderPreserved(a: string, b: string)
    ensures CorsOriginList(a + "," + b) == CorsOriginList(a) + CorsOriginList(b)
  {
    SplitConcat(a, b, ',');
    StrippedNonEmptyConcat(Split(a, ','), Split(b, ','));
  }

  /** A setting without commas gives its stripped text, or nothing if blank. */
  lemma CorsSingle(s: string)
    requires ',' !in s
    ensures CorsOriginList(s) == if Strip(s) == "" then [] else [Strip(s)]
  {
    assert Split(s, ',') == [s];
    assert [s][1..] == [];
  }

  /** A setting without commas or surrounding whitespace is its one origin. */
  lemma CorsPlain(s: string)
    requires ',' !in s && s != [] && !IsSpace(s[0]) && !IsSpace(s[|s| - 1])
    ensures CorsOriginList(s) == [s]
  {
    CorsSingle(s);
    StripPlain(s);
  }

  /** The default setting yields exactly the local development origin. */
  lemma CorsDefault()
    ensures CorsOriginList(DefaultCorsOrigins) == ["http://localhost:3000"]
  {
    CorsPlain(DefaultCorsOrigins);
  }
}
