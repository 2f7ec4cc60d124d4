/** Continuation tokens of the dental-news listing (`_enc_tok`, `_dec_tok`) and
    `list_news`, which turns a token back into DynamoDB's ExclusiveStartKey. */
module DentalPaging {
  import opened Wrappers
  import opened Text
  import opened DentalStore
  import opened PySlice

  /** One length-prefixed field: the decimal length, ':' and the text. */
  function Field(s: string): string {
    NatToString(|s|) + ":" + s
  }

  /** The serialised start key; stands for the urlsafe base64 of its JSON. */
  function Encode(k: StartKey): (r: string)
    ensures r != ""
  {
    Field(k.pk) + Field(k.sk) + Field(k.gsi1pk) + Field(k.gsi1sk)
  }

  /** Reads one field, returning it and what follows; None for malformed text. */
  function ReadField(t: string): Option<(string, string)> {
    match IndexOf(t, ":")
    case None => None
    case Some(i) =>
      if i >= 1 && AllDigits(t[..i]) then
        var n := DigitsValue(t[..i]);
        if i + 1 + n <= |t| then Some((t[i + 1..i + 1 + n], t[i + 1 + n..])) else None
      else None
  }

  lemma ReadFieldOfField(s: string, rest: string)
    ensures ReadField(Field(s) + rest) == Some((s, rest))
  {
    var d := NatToString(|s|);
    var t := Field(s) + rest;
    var L := |d|;
    assert t == d + ":" + s + rest;
    assert t[..L] == d;
    assert OccursAt(t, ":", L) by {
      assert t[L..L + 1] == ":";
    }
    var r := IndexOf(t, ":");
    assert r.Some?;
    var i := r.value;
    assert t[i..i + 1] == ":";
    assert t[i] == ':' by {
      assert t[i..i + 1][0] == t[i];
    }
    AllDigitsIff(d);
    assert forall j :: 0 <= j < L ==> t[j] == d[j];
    assert i == L;
    DigitsValueOfNatToString(|s|);
    assert t[L + 1..L + 1 + |s|] == s;
    assert t[L + 1 + |s|..] == rest;
  }

  function Decode(t: string): Option<StartKey> {
    match ReadField(t)
    case None => None
    case Some((a, t1)) =>
      match ReadField(t1)
      case None => None
      case Some((b, t2)) =>
        match ReadField(t2)
        case None => None
        case Some((c, t3)) =>
          match ReadField(t3)
          case None => None
          case Some((d, t4)) => if t4 == "" then Some(StartKey(a, b, c, d)) else None
  }

  lemma DecodeEncode(k: StartKey)
    ensures Decode(Encode(k)) == Some(k)
  {
    var f4 := Field(k.gsi1sk);
    var r3 := Field(k.gsi1pk) + f4;
    var r2 := Field(k.sk) + r3;
    assert Encode(k) == Field(k.pk) + r2;
    ReadFieldOfField(k.pk, r2);
    ReadFieldOfField(k.sk, r3);
    ReadFieldOfField(k.gsi1pk, f4);
    assert f4 == f4 + "";
    ReadFieldOfField(k.gsi1sk, "");
  }

  /** `_enc_tok`: no key, no token. */
  function EncTok(lek: Option<StartKey>): (r: Option<string>)
    ensures lek.None? <==> r.None?
    ensures r.Some? ==> r.value != ""
  {
    match lek
    case None => None
    case Some(k) => Some(Encode(k))
  }

  /** `_dec_tok`: a missing or empty token, or one that does not decode, is None. */
  function DecTok(tok: Option<string>): (r: Option<StartKey>)
    ensures !Truthy(tok) ==> r.None?
  {
    if !Truthy(tok) then None else Decode(tok.value)
  }

  /** A token handed out for a key gives that key back. */
  lemma TokenRoundTrip(k: StartKey)
    ensures DecTok(EncTok(Some(k))) == Some(k)
  {
    DecodeEncode(k);
  }

  /** `list_news`: one page of a (kind, lang) partition and the token for the next. */
  function ListNews(t: DentalTable, kind: string, lang: string, limit: int, tok: Option<string>)
    : (r: Result<(seq<Record>, Option<string>), string>)
    reads t
    requires t.Valid()
    ensures r.Err? <==> limit < 1
    ensures r.Ok? ==> r.value.1.Some? <==> |t.Remaining(PartitionKey(kind, lang), DecTok(tok))| >= limit
  {
    var q := t.Query(PartitionKey(kind, lang), limit, DecTok(tok));
    if q.Err? then Err(q.error)
    else Ok((q.value.items, EncTok(q.value.next)))
  }

  lemma NextTokenDecodes(next: Option<StartKey>)
    ensures DecTok(EncTok(next)) == next
  {
    if next.Some? {
      TokenRoundTrip(next.value);
    }
  }

  /** The token `list_news` hands out decodes to the key of the page's last item. */
  lemma ListNewsTokenIsLastItem(t: DentalTable, kind: string, lang: string, limit: int, tok: Option<string>)
    requires t.Valid() && limit >= 1
    requires ListNews(t, kind, lang, limit, tok).value.1.Some?
    ensures var page := ListNews(t, kind, lang, limit, tok).value;
            page.0 != [] && DecTok(page.1) == Some(StartKeyOf(page.0[|page.0| - 1]))
  {
    var q := t.Query(PartitionKey(kind, lang), limit, DecTok(tok)).value;
    NextTokenDecodes(q.next);
    t.QueryNextIsLast(PartitionKey(kind, lang), limit, DecTok(tok));
  }

  /** Following the returned token never shows an item of the previous page
      again: every item of the next page is strictly older in index order. */
  lemma NextPageStrictlyAfter(t: DentalTable, kind: string, lang: string, limit: int, tok: Option<string>)
    requires t.Valid() && limit >= 1
    requires ListNews(t, kind, lang, limit, tok).value.1.Some?
    ensures var first := ListNews(t, kind, lang, limit, tok).value;
            var second := ListNews(t, kind, lang, limit, first.1).value;
            forall x, y :: x in first.0 && y in second.0 ==> EntryLt(EntryOf(y), EntryOf(x))
  {
    var p := PartitionKey(kind, lang);
    var q1 := t.Query(p, limit, DecTok(tok)).value;
    NextTokenDecodes(q1.next);
    t.QueryResumesAfterLast(p, limit, DecTok(tok));
  }

  /** One entry of the `/news/api/latest` payload. */
  datatype LatestItem = LatestItem(title: string, url: string, publishedAt: string)

  /** The JSON object `news_api_latest` returns. */
  datatype Latest = Latest(kind: string, lang: string, count: nat, updatedAt: string, items: seq<LatestItem>)

  const DefaultLatestLimit := 5
  const MaxLatestLimit := 20

  /** `min(int(request.args.get("limit", 5)), 20)`; None is the ValueError `int` raises. */
  function LatestLimit(arg: Option<string>): (r: Option<int>)
    ensures arg.None? ==> r == Some(DefaultLatestLimit)
    ensures arg.Some? ==> (r.None? <==> ParseInt(arg.value).None?)
    ensures r.Some? ==> r.value <= MaxLatestLimit
    ensures arg.Some? && r.Some? ==> r.value == ParseInt(arg.value).value || r.value == MaxLatestLimit < ParseInt(arg.value).value
  {
    var n := if arg.None? then Some(DefaultLatestLimit) else ParseInt(arg.value);
    if n.None? then None
    else Some(if n.value < MaxLatestLimit then n.value else MaxLatestLimit)
  }

  /** The comprehension's filter `if it.get("title") and it.get("url")`. */
  predicate Listed(r: Record) {
    Truthy(r.title) && r.url != ""
  }

  /** One payload entry, with `published_at` cut to its first ten characters. */
  function Shape(r: Record): LatestItem
    requires Listed(r)
  {
    LatestItem(r.title.value, r.url, Take(r.publishedAt.GetOr(""), 10))
  }

  /** The list comprehension over the page. */
  function Payload(items: seq<Record>): (r: seq<LatestItem>)
    ensures |r| <= |items|
    ensures forall x :: x in r ==> x.title != "" && x.url != "" && |x.publishedAt| <= 10
  {
    if items == [] then []
    else (if Listed(items[0]) then [Shape(items[0])] else []) + Payload(items[1..])
  }

  /** An entry is in the payload exactly when it shapes a listed item of the page. */
  lemma {:induction false} PayloadIff(items: seq<Record>, x: LatestItem)
    ensures x in Payload(items) <==> exists i :: 0 <= i < |items| && Listed(items[i]) && x == Shape(items[i])
    decreases |items|
  {
    if items != [] {
      PayloadIff(items[1..], x);
      if exists i :: 0 <= i < |items| && Listed(items[i]) && x == Shape(items[i]) {
        var i :| 0 <= i < |items| && Listed(items[i]) && x == Shape(items[i]);
        if i > 0 {
          assert items[1..][i - 1] == items[i];
        }
      }
      if x in Payload(items[1..]) {
        var i :| 0 <= i < |items[1..]| && Listed(items[1..][i]) && x == Shape(items[1..][i]);
        assert items[i + 1] == items[1..][i];
      }
    }
  }

  /** When every item is listed, the payload keeps them all, in order. */
  lemma {:induction false} PayloadAllListed(items: seq<Record>)
    requires forall i :: 0 <= i < |items| ==> Listed(items[i])
    ensures |Payload(items)| == |items|
    ensures forall i :: 0 <= i < |items| ==> Payload(items)[i] == Shape(items[i])
    decreases |items|
  {
    if items != [] {
      var rest := items[1..];
      forall i | 0 <= i < |rest| ensures Listed(rest[i]) {
        assert rest[i] == items[i + 1];
      }
      PayloadAllListed(rest);
      var p := Payload(items);
      assert p == [Shape(items[0])] + Payload(rest);
      forall i | 0 <= i < |items| ensures p[i] == Shape(items[i]) {
        if i > 0 {
          assert p[i] == Payload(rest)[i - 1] && rest[i - 1] == items[i];
        }
      }
    }
  }

  /** `news_api_latest` for the query arguments `kind`, `lang` and `limit`; `now`
      is `_iso_now_utc()`. A limit that does not parse, or is below 1 once capped,
      is an error (the ValueError, and DynamoDB's rejection of the Limit). */
  function NewsApiLatest(t: DentalTable, kindArg: Option<string>, langArg: Option<string>,
                         limitArg: Option<string>, now: string): (r: Result<Latest, string>)
    reads t
    requires t.Valid()
    ensures r.Err? <==> LatestLimit(limitArg).None? || LatestLimit(limitArg).value < 1
    ensures r.Ok? ==>
              && r.value.kind == kindArg.GetOr("research") && r.value.lang == langArg.GetOr("ja")
              && r.value.count == |r.value.items| <= MaxLatestLimit && r.value.updatedAt == now
    ensures r.Ok? ==>
              var p := PartitionKey(kindArg.GetOr("research"), langArg.GetOr("ja"));
              r.value.items == Payload(t.Query(p, LatestLimit(limitArg).value, None).value.items)
  {
    var kind, lang := kindArg.GetOr("research"), langArg.GetOr("ja");
    var limit := LatestLimit(limitArg);
    if limit.None? then Err("ValueError: invalid literal for int()")
    else
      var q := t.Query(PartitionKey(kind, lang), limit.value, None);
      if q.Err? then Err(q.error)
      else
        var payload := Payload(q.value.items);
        Ok(Latest(kind, lang, |payload|, now, payload))
  }
}
