/**
 * `minerva.media.extract_audio_urls`: the audio URLs found in the decoded
 * response of the speech-synthesis service, in the order the generator
 * yields them, and the first of them, the one that is downloaded.
 */
module Media {
  import opened Wrappers
  import Seqs
  import opened Text
  import opened Assoc
  import opened Doc

  const Http: string := "http"

  predicate IsUrl(s: string) { StartsWith(s, Http) }

  predicate AllUrls(urls: seq<string>) {
    forall k :: 0 <= k < |urls| ==> IsUrl(urls[k])
  }

  /** Tables and lists are searched when they sit under any key of a table. */
  predicate IsContainer(v: Value) { v.Table? || v.List? }

  /**
   * Everything the generator yields for `payload`: for a table, the results
   * for its `audio` entry, then for its `url` entry, then for every table or
   * list value in order; for a list, the results of its items in order; a
   * string starting with `http` is itself; anything else yields nothing.
   */
  function AudioUrls(payload: Value): (urls: seq<string>)
    ensures AllUrls(urls)
    decreases payload, 2
  {
    match payload
    case Table(_) => KeyedUrls(payload, "audio") + KeyedUrls(payload, "url") + NestedUrls(payload, 0)
    case List(_) => ItemUrls(payload, 0)
    case Str(s) => if IsUrl(s) then [s] else []
    case _ => []
  }

  /** `if key in payload: yield from extract_audio_urls(payload[key])`. */
  function KeyedUrls(v: Value, key: string): (urls: seq<string>)
    requires v.Table?
    ensures AllUrls(urls)
    decreases v, 1
  {
    var i := IndexOfKey(v.entries, key);
    if i < |v.entries| then AudioUrls(v.entries[i].1) else []
  }

  /** The loop over the table's values from position `i`, descending into tables and lists only. */
  function NestedUrls(v: Value, i: nat): (urls: seq<string>)
    requires v.Table?
    ensures AllUrls(urls)
    decreases v, 0, |v.entries| - i
  {
    if i >= |v.entries| then []
    else (if IsContainer(v.entries[i].1) then AudioUrls(v.entries[i].1) else []) + NestedUrls(v, i + 1)
  }

  /** The loop over the list's items from position `i`. */
  function ItemUrls(v: Value, i: nat): (urls: seq<string>)
    requires v.List?
    ensures AllUrls(urls)
    decreases v, 0, |v.items| - i
  {
    if i >= |v.items| then [] else AudioUrls(v.items[i]) + ItemUrls(v, i + 1)
  }

  /** The URL `synthesise_speech` downloads: the first one yielded, if any. */
  function FirstAudioUrl(payload: Value): (url: Option<string>)
    ensures url.None? <==> AudioUrls(payload) == []
    ensures url.Some? ==> IsUrl(url.value) && url.value == AudioUrls(payload)[0]
  {
    var urls := AudioUrls(payload);
    if urls == [] then None else Some(urls[0])
  }

  /** What a table value contributes in the loop over values. */
  function ValueUrls(x: Value): seq<string> {
    if IsContainer(x) then AudioUrls(x) else []
  }

  /** A list yields its first items' results, then the rest's: the concatenation in item order. */
  lemma {:induction false} ItemUrlsConcat(a: seq<Value>, b: seq<Value>, i: nat)
    requires i <= |a|
    ensures ItemUrls(List(a + b), i) == ItemUrls(List(a), i) + ItemUrls(List(b), 0)
    decreases |a| - i
  {
    if i < |a| {
      ItemUrlsConcat(a, b, i + 1);
      assert (a + b)[i] == a[i];
    } else {
      ItemUrlsShift(a, b, 0);
    }
  }

  lemma {:induction false} ItemUrlsShift(a: seq<Value>, b: seq<Value>, j: nat)
    requires j <= |b|
    ensures ItemUrls(List(a + b), |a| + j) == ItemUrls(List(b), j)
    decreases |b| - j
  {
    if j < |b| {
      ItemUrlsShift(a, b, j + 1);
      assert (a + b)[|a| + j] == b[j];
    }
  }

  lemma ListConcat(a: seq<Value>, b: seq<Value>)
    ensures AudioUrls(List(a + b)) == AudioUrls(List(a)) + AudioUrls(List(b))
  {
    ItemUrlsConcat(a, b, 0);
  }

  /** Appending an entry to a table appends what its value contributes to the loop over values. */
  lemma {:induction false} NestedUrlsSnoc(d: Dict<string, Value>, e: (string, Value), i: nat)
    requires i <= |d|
    ensures NestedUrls(Table(d + [e]), i) == NestedUrls(Table(d), i) + ValueUrls(e.1)
    decreases |d| - i
  {
    var t, t' := Table(d + [e]), Table(d);
    if i < |d| {
      var here := ValueUrls(d[i].1);
      assert (d + [e])[i] == d[i];
      assert NestedUrls(t, i) == here + NestedUrls(t, i + 1);
      assert NestedUrls(t', i) == here + NestedUrls(t', i + 1);
      NestedUrlsSnoc(d, e, i + 1);
      Seqs.ConcatAssoc(here, NestedUrls(t', i + 1), ValueUrls(e.1));
    } else {
      assert (d + [e])[|d|] == e;
      assert NestedUrls(t, i + 1) == [] && NestedUrls(t', i) == [];
      assert NestedUrls(t, i) == ValueUrls(e.1) + [];
    }
  }

  /** Appending an entry under another key leaves the lookup of `key` alone. */
  lemma KeyedUrlsSnoc(d: Dict<string, Value>, e: (string, Value), key: string)
    requires e.0 != key
    ensures KeyedUrls(Table(d + [e]), key) == KeyedUrls(Table(d), key)
  {
    var i := IndexOfKey(d, key);
    assert forall j :: 0 <= j < |d| ==> (d + [e])[j] == d[j];
    if i < |d| {
      IndexOfKeyIs(d + [e], key, i);
    } else {
      IndexOfKeyIs(d + [e], key, |d| + 1);
    }
  }

  /**
   * A string stored under a key other than `audio` or `url` is never
   * yielded: appending such an entry to a table changes nothing.
   */
  lemma StrEntryIgnored(d: Dict<string, Value>, key: string, s: string)
    requires key != "audio" && key != "url"
    ensures AudioUrls(Table(d + [(key, Str(s))])) == AudioUrls(Table(d))
  {
    var e := (key, Str(s));
    KeyedUrlsSnoc(d, e, "audio");
    KeyedUrlsSnoc(d, e, "url");
    NestedUrlsSnoc(d, e, 0);
  }

  /**
   * A table appended under a fresh key other than `audio` and `url` adds its
   * URLs at the end, after everything found earlier.
   */
  lemma ContainerEntryLast(d: Dict<string, Value>, key: string, x: Value)
    requires key != "audio" && key != "url" && IsContainer(x)
    ensures AudioUrls(Table(d + [(key, x)])) == AudioUrls(Table(d)) + AudioUrls(x)
  {
    var e := (key, x);
    KeyedUrlsSnoc(d, e, "audio");
    KeyedUrlsSnoc(d, e, "url");
    NestedUrlsSnoc(d, e, 0);
  }

  /**
   * A table under `audio` is searched twice, once for the key and once in
   * the loop over values, so a URL inside it is yielded twice.
   */
  lemma AudioTableTwice(url: string)
    requires IsUrl(url)
    ensures AudioUrls(Table([("audio", Table([("url", Str(url))]))])) == [url, url]
  {
    var inner := Table([("url", Str(url))]);
    assert KeyedUrls(inner, "audio") == [];
    assert KeyedUrls(inner, "url") == [url];
    assert NestedUrls(inner, 0) == [];
    assert AudioUrls(inner) == [url];
    var outer := Table([("audio", inner)]);
    assert KeyedUrls(outer, "url") == [];
    assert NestedUrls(outer, 0) == [url];
  }

  /** A bare URL is the URL downloaded; any other string gives none. */
  lemma FirstOfString(s: string)
    ensures FirstAudioUrl(Str(s)) == if IsUrl(s) then Some(s) else None
  {
  }

  /** A URL string under `audio` is the one downloaded, whatever else the table holds. */
  lemma FirstOfAudio(d: Dict<string, Value>, url: string)
    requires IsUrl(url) && d != [] && d[0] == ("audio", Str(url))
    ensures FirstAudioUrl(Table(d)) == Some(url)
  {
    assert IndexOfKey(d, "audio") == 0;
    assert KeyedUrls(Table(d), "audio") == [url];
  }
}
