/**
 * Request targets. A collection request goes to `base + category`; an item
 * request goes to `base + category + "/" + id`, where the id is written in
 * decimal as a template literal writes an integer. The parser below is the
 * partner of that construction: it reads a URL back the way a router does,
 * and the round-trip lemmas show that the category and id a request names
 * are exactly the ones the controller bound.
 */
module Paths {
  import opened MenuModel

  predicate IsDigit(c: char) {
    '0' <= c <= '9'
  }

  predicate AllDigits(s: string) {
    forall i :: 0 <= i < |s| ==> IsDigit(s[i])
  }

  function DigitChar(d: nat): (c: char)
    requires d < 10
    ensures IsDigit(c) && c as int - '0' as int == d
  {
    ('0' as int + d) as char
  }

  /** Decimal text of a natural number, most significant digit first, no leading zeros. */
  function NatText(n: nat): string
    decreases n
  {
    if n < 10 then [DigitChar(n)] else NatText(n / 10) + [DigitChar(n % 10)]
  }

  /** Decimal text of an integer id, with a leading '-' when negative. */
  function IdText(id: int): (t: string)
    ensures |t| > 0 && (t[0] == '-' <==> id < 0)
    ensures id < 0 ==> AllDigits(t[1..])
    ensures id >= 0 ==> AllDigits(t)
  {
    NatTextDigits(if id < 0 then -id else id);
    if id < 0 then "-" + NatText(-id) else NatText(id)
  }

  /** Value of a string of decimal digits. */
  function DigitsValue(s: string): nat
    requires AllDigits(s)
  {
    if s == [] then 0 else DigitsValue(s[..|s| - 1]) * 10 + (s[|s| - 1] as int - '0' as int)
  }

  /**
   * Reads a canonical decimal integer, as parseInt(text, 10) does on the
   * text that IdText produces: an optional '-' followed by at least one digit.
   */
  function ParseId(s: string): (r: Option<int>)
    ensures r.Some? ==> |s| > 0 && '/' !in s
    ensures |s| > 0 && AllDigits(s) ==> r == Some(DigitsValue(s))
  {
    assert |s| > 1 && AllDigits(s[1..]) ==> forall j :: 0 < j < |s| ==> IsDigit(s[j]) by {
      if |s| > 1 && AllDigits(s[1..]) {
        forall j | 0 < j < |s| ensures IsDigit(s[j]) { assert s[j] == s[1..][j - 1]; }
      }
    }
    if |s| > 1 && s[0] == '-' && AllDigits(s[1..]) then Some(-(DigitsValue(s[1..]) as int))
    else if |s| > 0 && AllDigits(s) then Some(DigitsValue(s))
    else None
  }

  lemma {:induction false} NatTextDigits(n: nat)
    ensures |NatText(n)| > 0 && AllDigits(NatText(n))
    ensures DigitsValue(NatText(n)) == n
    decreases n
  {
    if n >= 10 {
      NatTextDigits(n / 10);
      var s := NatText(n);
      assert s == NatText(n / 10) + [DigitChar(n % 10)];
      assert s[..|s| - 1] == NatText(n / 10);
    }
  }

  /**
   * The id the edit handler writes into the update button's dataset as text
   * is the integer that the update handler reads back with parseInt.
   */
  lemma IdTextRoundTrip(id: int)
    ensures ParseId(IdText(id)) == Some(id)
    ensures '/' !in IdText(id)
  {
    var s := IdText(id);
    if id < 0 {
      var digits := NatText(-id);
      NatTextDigits(-id);
      assert s == "-" + digits;
      assert s[1..] == digits;
      assert |s| > 1 && s[0] == '-';
      assert ParseId(s) == Some(-(DigitsValue(digits) as int));
      forall j | 0 <= j < |s| ensures s[j] != '/' {
        if j > 0 { assert s[j] == digits[j - 1]; }
      }
    } else {
      NatTextDigits(id);
      assert s == NatText(id);
      assert IsDigit(s[0]);
      assert ParseId(s) == Some(DigitsValue(s));
      forall j | 0 <= j < |s| ensures s[j] != '/' {
        assert IsDigit(s[j]);
      }
    }
  }

  /** The URL that lists or creates the items of one category. */
  function CollectionPath(base: string, category: string): (p: string)
    ensures base <= p && p[|base|..] == category
  {
    base + category
  }

  /** The URL of one item: its category's collection, a slash, the id. */
  function ItemPath(base: string, category: string, id: int): (p: string)
    ensures CollectionPath(base, category) <= p && |p| > |base| + |category| + 1
    ensures p[|base| + |category|] == '/'
  {
    CollectionPath(base, category) + "/" + IdText(id)
  }

  /** The position of the last '/' in a string, if any. */
  function LastSlash(s: string): (r: Option<nat>)
    ensures r.Some? ==> r.value < |s| && s[r.value] == '/'
    ensures r.Some? ==> forall j :: r.value < j < |s| ==> s[j] != '/'
    ensures r.None? ==> '/' !in s
  {
    if s == [] then None
    else if s[|s| - 1] == '/' then Some(|s| - 1)
    else LastSlash(s[..|s| - 1])
  }

  /**
   * Reads an item URL back into the category and id it names: strip the
   * base, split at the last '/', parse the id.
   */
  function SplitItemPath(base: string, url: string): Option<(string, int)> {
    if base <= url then
      var rest := url[|base|..];
      match LastSlash(rest)
      case None => None
      case Some(k) =>
        match ParseId(rest[k + 1..])
        case None => None
        case Some(id) => Some((rest[..k], id))
    else None
  }

  /** In `prefix + "/" + tail` with no '/' in the tail, the last '/' is the joining one. */
  lemma {:induction false} LastSlashOfJoin(prefix: string, tail: string)
    requires '/' !in tail
    ensures LastSlash(prefix + "/" + tail) == Some(|prefix|)
  {
    var s := prefix + "/" + tail;
    if tail == [] {
      assert s[|s| - 1] == '/';
    } else {
      var shorter := tail[..|tail| - 1];
      assert s[|s| - 1] == tail[|tail| - 1];
      assert s[..|s| - 1] == prefix + "/" + shorter;
      assert '/' !in shorter by {
        forall j | 0 <= j < |shorter| ensures shorter[j] != '/' { assert shorter[j] == tail[j]; }
      }
      LastSlashOfJoin(prefix, shorter);
    }
  }

  /** The parser splits `base + category + "/" + tail` at the joining '/' when the tail is an id. */
  lemma SplitJoined(base: string, category: string, tail: string, id: int)
    requires ParseId(tail) == Some(id) && '/' !in tail
    ensures SplitItemPath(base, base + (category + "/" + tail)) == Some((category, id))
  {
    var rest := category + "/" + tail;
    var url := base + rest;
    assert base <= url;
    assert url[|base|..] == rest;
    LastSlashOfJoin(category, tail);
    assert rest[|category| + 1..] == tail;
    assert rest[..|category|] == category;
  }

  /**
   * Every item URL names the category and id it was built from, whatever
   * the category text (even one holding a '/'): distinct items always get
   * distinct URLs.
   */
  lemma ItemPathRoundTrip(base: string, category: string, id: int)
    ensures SplitItemPath(base, ItemPath(base, category, id)) == Some((category, id))
  {
    var tail := IdText(id);
    IdTextRoundTrip(id);
    assert ItemPath(base, category, id) == base + (category + "/" + tail);
    SplitJoined(base, category, tail, id);
  }

  /** Distinct (category, id) pairs are sent to distinct URLs. */
  lemma ItemPathInjective(base: string, c1: string, id1: int, c2: string, id2: int)
    requires ItemPath(base, c1, id1) == ItemPath(base, c2, id2)
    ensures c1 == c2 && id1 == id2
  {
    ItemPathRoundTrip(base, c1, id1);
    ItemPathRoundTrip(base, c2, id2);
  }
}
