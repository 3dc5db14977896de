/**
 * The "HIBP-PwnedPasswords" tool: the k-anonymity range query built from the
 * SHA-1 digest of the password, and the scan of the `SUFFIX:COUNT` lines the
 * range endpoint returns. The digest itself (SHA-1 of the UTF-8 encoded
 * password) is an input.
 */
module PwnedPasswords {
  import opened Wrappers
  import opened Text
  import opened HibpTools

  const RangeBaseUrl: string := "https://api.pwnedpasswords.com/range"

  /** The length of the prefix sent to the range endpoint. */
  const PrefixLength: nat := 5

  datatype RangeQuery = RangeQuery(prefix: string, suffix: string, url: string)

  /**
   * `hashHex.substring(0, 5).toUpperCase()`, `hashHex.substring(5).toUpperCase()`
   * and the request URL, for the digest bytes of the password.
   */
  function RangeQueryFor(digest: seq<Byte>): (q: RangeQuery)
    ensures q.prefix + q.suffix == ToUpperCase(Hex(digest))
    ensures |digest| >= 3 ==> |q.prefix| == PrefixLength
    ensures |digest| == 20 ==> |q.prefix| == 5 && |q.suffix| == 35
  {
    var hashHex := Hex(digest);
    var prefix := ToUpperCase(Substring(hashHex, 0, PrefixLength));
    var suffix := ToUpperCase(Substring(hashHex, PrefixLength, |hashHex|));
    ToUpperCaseAppend(Substring(hashHex, 0, PrefixLength), Substring(hashHex, PrefixLength, |hashHex|));
    RangeQuery(prefix, suffix, RangeBaseUrl + "/" + prefix)
  }

  /**
   * The prefix and the suffix together determine the digest: decoding their
   * concatenation gives the digest bytes back.
   */
  lemma RangeQueryKeepsDigest(digest: seq<Byte>)
    ensures var q := RangeQueryFor(digest); Unhex(q.prefix + q.suffix) == digest
  {
    UnhexUpperHex(digest);
  }

  /**
   * k-anonymity: the request URL depends only on the first five hex digits,
   * i.e. on the first two bytes and the high nibble of the third; two
   * passwords whose digests agree there produce the same request.
   */
  lemma RangeUrlDependsOnlyOnPrefix(d1: seq<Byte>, d2: seq<Byte>)
    requires |d1| >= 3 && |d2| >= 3
    requires d1[0] == d2[0] && d1[1] == d2[1] && d1[2] / 16 == d2[2] / 16
    ensures RangeQueryFor(d1).url == RangeQueryFor(d2).url
  {
    var h1, h2 := Hex(d1), Hex(d2);
    HexAt(d1, 0); HexAt(d2, 0);
    HexAt(d1, 1); HexAt(d2, 1);
    HexAt(d1, 2); HexAt(d2, 2);
    assert h1[..5] == h2[..5] by {
      assert h1[0] == h2[0] && h1[1] == h2[1] && h1[2] == h2[2] && h1[3] == h2[3] && h1[4] == h2[4];
    }
    assert Substring(h1, 0, PrefixLength) == h1[..5];
    assert Substring(h2, 0, PrefixLength) == h2[..5];
  }

  // ---------------------------------------------------------------------------
  // Scanning the range response

  /** `hash.split(':')[0]`: the suffix field of a response line. */
  function LineSuffix(line: string): (suffix: string)
    ensures suffix <= line && Free(suffix, ":")
  {
    SplitPiecesFree(line, ":");
    Split(line, ":")[0]
  }

  /** `parseInt(hash.split(':')[1])`; a line without ':' gives `parseInt(undefined)`, NaN. */
  function LineCount(line: string): (count: Option<int>)
    ensures Free(line, ":") ==> count.None?
  {
    var fields := Split(line, ":");
    if |fields| >= 2 then ParseInt(fields[1]) else None
  }

  /** `responseText.split('\r\n')`. */
  function ResponseLines(responseText: string): seq<string> {
    Split(responseText, "\r\n")
  }

  /**
   * The `for ... of` loop over the response lines: the first line whose suffix
   * field equals `suffix` ends the scan with `found` and its count (`None`
   * standing for NaN); without such a line the result is not found, count 0.
   */
  method ScanRange(responseText: string, suffix: string) returns (found: bool, count: Option<int>)
    ensures var lines := ResponseLines(responseText);
      && (found <==> exists i :: 0 <= i < |lines| && LineSuffix(lines[i]) == suffix)
      && (found ==> exists i :: 0 <= i < |lines| && LineSuffix(lines[i]) == suffix
                      && (forall j :: 0 <= j < i ==> LineSuffix(lines[j]) != suffix)
                      && count == LineCount(lines[i]))
      && (!found ==> count == Some(0))
  {
    var hashes := Split(responseText, "\r\n");
    found := false;
    count := Some(0);
    var i := 0;
    while i < |hashes|
      invariant 0 <= i <= |hashes|
      invariant forall j :: 0 <= j < i ==> LineSuffix(hashes[j]) != suffix
      invariant !found && count == Some(0)
    {
      var fields := Split(hashes[i], ":");
      var hashSuffix := fields[0];
      var hashCount := if |fields| >= 2 then Some(fields[1]) else None;
      if hashSuffix == suffix {
        assert LineSuffix(hashes[i]) == suffix;
        found := true;
        count := if hashCount.Some? then ParseInt(hashCount.value) else None;
        break;
      }
      i := i + 1;
    }
    if found {
      assert LineSuffix(hashes[i]) == suffix && count == LineCount(hashes[i]);
    } else {
      assert i == |hashes|;
      assert !exists j :: 0 <= j < |hashes| && LineSuffix(hashes[j]) == suffix;
    }
    assert hashes == ResponseLines(responseText);
  }

  /** A response line for a suffix with a count, as the range endpoint writes it. */
  function RangeLine(suffix: string, count: nat): string {
    suffix + ":" + DecimalString(count)
  }

  /**
   * A line written by the endpoint reads back as its suffix and count, so a
   * response listing the password's suffix reports exactly the listed count.
   */
  lemma RangeLineReadsBack(suffix: string, count: nat)
    requires Free(suffix, ":")
    ensures LineSuffix(RangeLine(suffix, count)) == suffix
    ensures LineCount(RangeLine(suffix, count)) == Some(count)
  {
    var line := RangeLine(suffix, count);
    var digits := DecimalString(count);
    assert OccursAt(line, ":", |suffix|);
    var f := FindFrom(line, ":", 0);
    if f.Some? && f.value < |suffix| {
      assert line[f.value..f.value + 1] == suffix[f.value..f.value + 1];
      assert OccursAt(suffix, ":", f.value);
    }
    assert f == Some(|suffix|);
    var rest := line[|suffix| + 1..];
    assert rest == digits;
    assert FindFrom(rest, ":", 0).None?;
    assert line[..|suffix|] == suffix;
    assert Split(rest, ":") == [rest];
    assert Split(line, ":") == [suffix] + Split(rest, ":");
    ParseIntDecimal(count, []);
    assert digits + [] == digits;
  }

  // ---------------------------------------------------------------------------
  // The handler

  /** What the tool reports: the count of a listed password (`None` for NaN), not listed, or an error. */
  datatype PasswordReply = Exposed(count: Option<int>) | NotExposed | Errored(error: ToolError)

  /**
   * The "HIBP-PwnedPasswords" handler for a password whose SHA-1 digest is
   * `digest`: it fetches `request` and reads `response`. It takes no rate
   * limiter, so it never throttles, and the request carries only the prefix.
   */
  method PwnedPasswordsTool(digest: seq<Byte>, response: HttpResponse)
    returns (reply: PasswordReply, request: string)
    ensures request == RangeQueryFor(digest).url
    ensures !IsOk(response.status) ==> reply == Errored(ApiError(response.status, response.body))
    ensures IsOk(response.status) ==>
      var lines := ResponseLines(response.body);
      var suffix := RangeQueryFor(digest).suffix;
      && (reply.NotExposed? <==> forall i :: 0 <= i < |lines| ==> LineSuffix(lines[i]) != suffix)
      && (reply.Exposed? <==> !reply.NotExposed?)
      && (reply.Exposed? ==> exists i :: 0 <= i < |lines| && LineSuffix(lines[i]) == suffix
                               && (forall j :: 0 <= j < i ==> LineSuffix(lines[j]) != suffix)
                               && reply.count == LineCount(lines[i]))
  {
    var q := RangeQueryFor(digest);
    request := q.url;
    if !IsOk(response.status) {
      reply := Errored(ApiError(response.status, response.body));
      return;
    }
    var found, count := ScanRange(response.body, q.suffix);
    reply := if found then Exposed(count) else NotExposed;
  }
}
