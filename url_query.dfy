/**
 * `URLSearchParams` as the components use it: `set`, `toString`, parsing a
 * location's search string, and `get`. Percent-encoding is not modelled: the
 * form-urlencoded serializer and parser of one name or value are the parameters
 * `encode` and `decode`.
 */
module UrlQuery {
  import opened Wrappers
  import opened JsStrings

  /** The name/value list of a `URLSearchParams` object, in order. */
  type Params = seq<(string, string)>

  /** `params.set(key, value)`: overwrite the first pair named `key` and drop the others, or append one. */
  function SetParam(params: Params, key: string, value: string): (r: Params)
    ensures (forall k :: 0 <= k < |params| ==> params[k].0 != key) ==> r == params + [(key, value)]
  {
    if params == [] then [(key, value)]
    else if params[0].0 == key then [(key, value)] + DropKey(params[1..], key)
    else [params[0]] + SetParam(params[1..], key, value)
  }

  function DropKey(params: Params, key: string): Params {
    if params == [] then []
    else if params[0].0 == key then DropKey(params[1..], key)
    else [params[0]] + DropKey(params[1..], key)
  }

  /** `params.get(key)`: the value of the first pair named `key`, or `null`. */
  function Get(params: Params, key: string): Option<string> {
    if params == [] then None
    else if params[0].0 == key then Some(params[0].1)
    else Get(params[1..], key)
  }

  /** One `name=value` pair of `toString()`. */
  function EncodePair(pair: (string, string), encode: string -> string): string {
    encode(pair.0) + "=" + encode(pair.1)
  }

  function EncodePairs(params: Params, encode: string -> string): (r: seq<string>)
    ensures |r| == |params|
    ensures forall k :: 0 <= k < |params| ==> r[k] == EncodePair(params[k], encode)
  {
    if params == [] then [] else [EncodePair(params[0], encode)] + EncodePairs(params[1..], encode)
  }

  /** `params.toString()`: the encoded pairs joined by `&`. */
  function Serialize(params: Params, encode: string -> string): string {
    Join(EncodePairs(params, encode), '&')
  }

  /** One `&`-separated segment: the name up to the first `=`, the value after it (or `""`). */
  function DecodeSegment(segment: string, decode: string -> string): (string, string) {
    match IndexOf(segment, '=')
    case Some(i) => (decode(segment[..i]), decode(segment[i + 1..]))
    case None => (decode(segment), "")
  }

  function DecodeSegments(segments: seq<string>, decode: string -> string): Params {
    if segments == [] then []
    else if segments[0] == "" then DecodeSegments(segments[1..], decode)
    else [DecodeSegment(segments[0], decode)] + DecodeSegments(segments[1..], decode)
  }

  /** `new URLSearchParams(search)`: a leading `?` is dropped and empty segments are skipped. */
  function ParseQuery(search: string, decode: string -> string): Params {
    var query := if search != [] && search[0] == '?' then search[1..] else search;
    DecodeSegments(Split(query, '&'), decode)
  }

  /**
   * What the form-urlencoded serializer guarantees: its output never contains the
   * separators `&` and `=`, and the parser reads it back.
   */
  ghost predicate IsFormEncoding(encode: string -> string, decode: string -> string) {
    forall s :: decode(encode(s)) == s && '&' !in encode(s) && '=' !in encode(s)
  }

  lemma {:induction false} DecodeEncodedSegments(params: Params, encode: string -> string, decode: string -> string)
    requires IsFormEncoding(encode, decode)
    ensures DecodeSegments(EncodePairs(params, encode), decode) == params
  {
    if params != [] {
      var segs := EncodePairs(params, encode);
      var seg := EncodePair(params[0], encode);
      var name := encode(params[0].0);
      assert seg == name + "=" + encode(params[0].1);
      assert seg[..|name|] == name && seg[|name| + 1..] == encode(params[0].1);
      assert IndexOf(seg, '=') == Some(|name|);
      assert segs[1..] == EncodePairs(params[1..], encode);
      DecodeEncodedSegments(params[1..], encode, decode);
    }
  }

  /** Parsing what `toString()` wrote, with or without the leading `?`, gives the same pairs back. */
  lemma ParseSerialize(params: Params, encode: string -> string, decode: string -> string)
    requires IsFormEncoding(encode, decode)
    ensures ParseQuery("?" + Serialize(params, encode), decode) == params
  {
    var segs := EncodePairs(params, encode);
    assert ("?" + Serialize(params, encode))[1..] == Serialize(params, encode);
    if params == [] {
      assert Serialize(params, encode) == "";
      assert Split("", '&') == [""];
      assert DecodeSegments([""], decode) == DecodeSegments([""][1..], decode);
    } else {
      forall k | 0 <= k < |segs| ensures '&' !in segs[k] {
        assert segs[k] == encode(params[k].0) + "=" + encode(params[k].1);
      }
      SplitJoin(segs, '&');
      DecodeEncodedSegments(params, encode, decode);
    }
  }
}
