/**
 * The result handling of the reservation extractor (services/openai.js). The chat-completion request
 * is outside the model: its reply text is an input, absent when the request failed. `JSON.parse` is
 * a parameter that yields the parsed record, or nothing when the text is not valid JSON.
 */
module Extractor {
  import opened Values
  import opened Text

  /** One element of `special_requests`: `{type, description}`, either field possibly missing. */
  datatype RequestItem = RequestItem(kind: Option<string>, description: Option<string>)

  /** The record the extractor returns. A missing `special_requests` list reads as empty. */
  datatype Extracted = Extracted(
    guestName: Option<string>, guestCount: Option<int>, contactPhone: Option<string>,
    wellnessFee: Option<int>, arrivalTime: Option<string>, specialRequests: seq<RequestItem>)

  /** The fixed record returned on any failure. */
  const AllNull := Extracted(None, None, None, None, None, [])

  /** Index of the first `x` in `c` at or after `from`. */
  function FirstIndex(c: string, x: char, from: nat): (r: Option<nat>)
    requires from <= |c|
    ensures r.Some? ==> from <= r.value < |c| && c[r.value] == x && forall k :: from <= k < r.value ==> c[k] != x
    ensures r.None? ==> forall k :: from <= k < |c| ==> c[k] != x
    decreases |c| - from
  {
    if from == |c| then None
    else if c[from] == x then Some(from)
    else FirstIndex(c, x, from + 1)
  }

  /** Index of the last `x` in `c[..upto]`. */
  function LastIndex(c: string, x: char, upto: nat): (r: Option<nat>)
    requires upto <= |c|
    ensures r.Some? ==> r.value < upto && c[r.value] == x && forall k :: r.value < k < upto ==> c[k] != x
    ensures r.None? ==> forall k :: 0 <= k < upto ==> c[k] != x
  {
    if upto == 0 then None
    else if c[upto - 1] == x then Some(upto - 1)
    else LastIndex(c, x, upto - 1)
  }

  /**
   * `content.match(/\{[\s\S]*\}/)`: the leftmost `{` that has a `}` after it, extended greedily to the
   * last `}`; `[\s\S]` matches every character, line breaks included.
   */
  function BraceSlice(c: string): (r: Option<string>)
    ensures r.Some? ==> |r.value| >= 2 && r.value[0] == '{' && r.value[|r.value| - 1] == '}'
    ensures r.Some? ==> exists i :: OccursAt(c, i, r.value)
                                    && (forall k :: 0 <= k < i ==> c[k] != '{')
                                    && (forall k :: i + |r.value| <= k < |c| ==> c[k] != '}')
    ensures r.None? <==> forall i, j :: 0 <= i < j < |c| ==> !(c[i] == '{' && c[j] == '}')
  {
    var open := FirstIndex(c, '{', 0);
    var close := LastIndex(c, '}', |c|);
    if open.Some? && close.Some? && open.value < close.value then
      var s := c[open.value..close.value + 1];
      assert OccursAt(c, open.value, s);
      Some(s)
    else
      None
  }

  /** A JSON object surrounded by prose without braces is cut out exactly. */
  lemma BraceSliceCutsOutObject(pre: string, obj: string, post: string)
    requires '{' !in pre && '}' !in post
    requires |obj| >= 2 && obj[0] == '{' && obj[|obj| - 1] == '}'
    ensures BraceSlice(pre + obj + post) == Some(obj)
  {
    var c := pre + obj + post;
    assert c[|pre|] == '{' && c[|pre| + |obj| - 1] == '}';
    assert FirstIndex(c, '{', 0) == Some(|pre|) by {
      forall k | 0 <= k < |pre| ensures c[k] != '{' {
        assert c[k] == pre[k];
      }
    }
    assert LastIndex(c, '}', |c|) == Some(|pre| + |obj| - 1) by {
      forall k | |pre| + |obj| <= k < |c| ensures c[k] != '}' {
        assert c[k] == post[k - |pre| - |obj|];
      }
    }
    assert c[|pre|..|pre| + |obj|] == obj;
  }

  /**
   * `extractReservationData` in services/openai.js once the reply is in: parse it directly; failing
   * that, parse the brace slice; failing that (or when the request failed), the all-null record.
   */
  function ExtractFromReply(reply: Option<string>, parse: string -> Option<Extracted>): (r: Extracted)
    ensures reply.None? ==> r == AllNull
    ensures reply.Some? && parse(reply.value).Some? ==> r == parse(reply.value).value
    ensures reply.Some? && parse(reply.value).None? ==>
              r == if BraceSlice(reply.value).Some? && parse(BraceSlice(reply.value).value).Some?
                   then parse(BraceSlice(reply.value).value).value else AllNull
  {
    if reply.None? then AllNull
    else
      var direct := parse(reply.value);
      if direct.Some? then direct.value
      else
        var slice := BraceSlice(reply.value);
        if slice.None? then AllNull
        else
          var second := parse(slice.value);
          if second.Some? then second.value else AllNull
  }

  /**
   * Whatever comes back, the result is one the parser produced from the reply or from a slice of it,
   * or the all-null record: the function never fails.
   */
  lemma ExtractFromReplyOrigin(reply: Option<string>, parse: string -> Option<Extracted>)
    ensures var r := ExtractFromReply(reply, parse);
      r == AllNull
      || (reply.Some? && exists t :: (t == reply.value || Some(t) == BraceSlice(reply.value)) && parse(t) == Some(r))
  {
    var r := ExtractFromReply(reply, parse);
    if reply.Some? && r != AllNull {
      if parse(reply.value).Some? {
        assert parse(reply.value) == Some(r);
      } else {
        var t := BraceSlice(reply.value).value;
        assert parse(t) == Some(r);
      }
    }
  }

  /** A reply that is pure JSON wrapped in commentary is still understood, through the slice. */
  lemma WrappedReplyIsUnderstood(pre: string, obj: string, post: string, parse: string -> Option<Extracted>)
    requires '{' !in pre && '}' !in post
    requires |obj| >= 2 && obj[0] == '{' && obj[|obj| - 1] == '}'
    requires parse(pre + obj + post).None? && parse(obj).Some?
    ensures ExtractFromReply(Some(pre + obj + post), parse) == parse(obj).value
  {
    BraceSliceCutsOutObject(pre, obj, post);
  }
}
