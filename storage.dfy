/** The Cloudinary helpers of src/lib/storage.ts: the delivery-URL builder with
    its fixed transformation order, and the result flow of the upload and
    delete calls (the HTTP exchange itself is a parameter). */
module Storage {

  import opened Basics
  import opened Strings

  // ---- getCloudinaryUrl ----

  /** The optional `{ width, height, quality, crop }` argument. */
  datatype UrlOptions = UrlOptions(width: Option<int>, height: Option<int>, quality: Option<string>, crop: Option<string>)

  /** JavaScript truthiness of an optional number: present and not zero. */
  predicate TruthyNum(o: Option<int>) {
    o.Some? && o.value != 0
  }

  const DeliveryBase := "https://res.cloudinary.com/"
  const UploadPath := "/image/upload/"

  /** The entry an option contributes: `[prefix + value]` when it is truthy, else nothing. */
  function Piece(truthy: bool, entry: string): seq<string> {
    if truthy then [entry] else []
  }

  /** The entries pushed into `transformations`, one per truthy option, in the
      order width, height, quality, crop. */
  function Transformations(options: Option<UrlOptions>): seq<string> {
    match options
    case None => []
    case Some(o) =>
      Piece(TruthyNum(o.width), "w_" + (if o.width.Some? then IntToString(o.width.value) else ""))
      + Piece(TruthyNum(o.height), "h_" + (if o.height.Some? then IntToString(o.height.value) else ""))
      + Piece(Truthy(o.quality), "q_" + o.quality.GetOr(""))
      + Piece(Truthy(o.crop), "c_" + o.crop.GetOr(""))
  }

  /** The transformation segment: the entries joined by `,` and closed by one `/`,
      or nothing when there are none. */
  function Segment(ts: seq<string>): string {
    if |ts| > 0 then Join(ts, ",") + "/" else ""
  }

  /** The URL a call with these arguments returns. */
  function CloudinaryUrl(cloudName: string, publicId: string, options: Option<UrlOptions>): string {
    DeliveryBase + cloudName + UploadPath + Segment(Transformations(options)) + publicId
  }

  /** `getCloudinaryUrl(publicId, options)`, with the configured cloud name as a parameter. */
  method GetCloudinaryUrl(cloudName: string, publicId: string, options: Option<UrlOptions>) returns (url: string)
    ensures url == CloudinaryUrl(cloudName, publicId, options)
  {
    var transformations: seq<string> := [];
    if options.Some? && TruthyNum(options.value.width) {
      transformations := transformations + ["w_" + IntToString(options.value.width.value)];
    }
    ghost var t1 := transformations;
    if options.Some? && TruthyNum(options.value.height) {
      transformations := transformations + ["h_" + IntToString(options.value.height.value)];
    }
    ghost var t2 := transformations;
    if options.Some? && Truthy(options.value.quality) {
      transformations := transformations + ["q_" + options.value.quality.value];
    }
    ghost var t3 := transformations;
    if options.Some? && Truthy(options.value.crop) {
      transformations := transformations + ["c_" + options.value.crop.value];
    }
    if options.Some? {
      var o := options.value;
      assert t1 == Piece(TruthyNum(o.width), "w_" + (if o.width.Some? then IntToString(o.width.value) else ""));
      assert t2 == t1 + Piece(TruthyNum(o.height), "h_" + (if o.height.Some? then IntToString(o.height.value) else ""));
      assert t3 == t2 + Piece(Truthy(o.quality), "q_" + o.quality.GetOr(""));
      assert transformations == t3 + Piece(Truthy(o.crop), "c_" + o.crop.GetOr(""));
    }
    var transformation := if |transformations| > 0 then Join(transformations, ",") + "/" else "";
    url := DeliveryBase + cloudName + UploadPath + transformation + publicId;
  }

  /** The kind letters: width, height, quality, crop. */
  const Kinds: set<char> := {'w', 'h', 'q', 'c'}

  /** The position of an entry's kind in the fixed order w, h, q, c. */
  function Rank(kind: char): nat {
    if kind == 'w' then 0 else if kind == 'h' then 1 else if kind == 'q' then 2 else 3
  }

  /** Some entry is of this kind (its first letter, followed by `_`). */
  predicate Emitted(ts: seq<string>, kind: char) {
    exists i :: 0 <= i < |ts| && |ts[i]| >= 2 && ts[i][0] == kind && ts[i][1] == '_'
  }

  /** Every entry of `ts` is of kind `k`. */
  predicate OfKind(ts: seq<string>, k: char) {
    forall i :: 0 <= i < |ts| ==> |ts[i]| >= 2 && ts[i][0] == k && ts[i][1] == '_'
  }

  lemma PieceKind(truthy: bool, k: char, entry: string)
    requires |entry| >= 2 && entry[0] == k && entry[1] == '_'
    ensures OfKind(Piece(truthy, entry), k)
    ensures |Piece(truthy, entry)| <= 1 && (Piece(truthy, entry) != [] <==> truthy)
  {
  }

  /** Every entry is a kind letter and `_`, in strictly increasing rank, all below `bound`. */
  predicate RankedBelow(ts: seq<string>, bound: nat) {
    && (forall i :: 0 <= i < |ts| ==> |ts[i]| >= 2 && ts[i][0] in Kinds && ts[i][1] == '_' && Rank(ts[i][0]) < bound)
    && (forall i, j :: 0 <= i < j < |ts| ==> Rank(ts[i][0]) < Rank(ts[j][0]))
  }

  /** Appending a piece of a later kind keeps the order. */
  lemma AppendRanked(ts: seq<string>, p: seq<string>, k: char, rank: nat)
    requires k in Kinds && Rank(k) == rank && RankedBelow(ts, rank) && OfKind(p, k) && |p| <= 1
    ensures RankedBelow(ts + p, rank + 1)
  {
    var r := ts + p;
    if p != [] {
      forall i | 0 <= i < |r| ensures |r[i]| >= 2 && r[i][0] in Kinds && r[i][1] == '_' && Rank(r[i][0]) <= rank {
        if i < |ts| { assert r[i] == ts[i]; } else { assert r[i] == p[0]; }
      }
      forall i, j | 0 <= i < j < |r| ensures Rank(r[i][0]) < Rank(r[j][0]) {
        assert r[i] == ts[i];
        if j < |ts| { assert r[j] == ts[j]; } else { assert r[j] == p[0]; }
      }
    } else {
      assert r == ts;
    }
  }

  /** Appending a piece of kind `k` adds that kind, when the piece is there, and no other. */
  lemma AppendEmitted(ts: seq<string>, p: seq<string>, k: char, kind: char)
    requires OfKind(p, k) && |p| <= 1
    ensures Emitted(ts + p, kind) <==> Emitted(ts, kind) || (kind == k && p != [])
  {
    var r := ts + p;
    if Emitted(r, kind) {
      var i :| 0 <= i < |r| && |r[i]| >= 2 && r[i][0] == kind && r[i][1] == '_';
      if i < |ts| { assert r[i] == ts[i]; } else { assert r[i] == p[0]; }
    }
    if Emitted(ts, kind) {
      var i :| 0 <= i < |ts| && |ts[i]| >= 2 && ts[i][0] == kind && ts[i][1] == '_';
      assert r[i] == ts[i];
    }
    if kind == k && p != [] { assert r[|ts|] == p[0]; }
  }

  /** Four pieces of kinds w, h, q, c, one after the other, are in rank order. */
  lemma FourRanked(a: seq<string>, b: seq<string>, c: seq<string>, d: seq<string>)
    requires OfKind(a, 'w') && OfKind(b, 'h') && OfKind(c, 'q') && OfKind(d, 'c')
    requires |a| <= 1 && |b| <= 1 && |c| <= 1 && |d| <= 1
    ensures |a + b + c + d| <= 4 && RankedBelow(a + b + c + d, 4)
  {
    var none: seq<string> := [];
    assert none + a == a;
    AppendRanked(none, a, 'w', 0);
    AppendRanked(a, b, 'h', 1);
    AppendRanked(a + b, c, 'q', 2);
    AppendRanked(a + b + c, d, 'c', 3);
  }

  /** Four pieces of kinds w, h, q, c: a kind is emitted exactly when its piece is there. */
  lemma FourEmitted(a: seq<string>, b: seq<string>, c: seq<string>, d: seq<string>, kind: char, mine: seq<string>)
    requires OfKind(a, 'w') && OfKind(b, 'h') && OfKind(c, 'q') && OfKind(d, 'c')
    requires |a| <= 1 && |b| <= 1 && |c| <= 1 && |d| <= 1
    requires mine == if kind == 'w' then a else if kind == 'h' then b else if kind == 'q' then c else if kind == 'c' then d else []
    ensures Emitted(a + b + c + d, kind) <==> mine != []
  {
    var none: seq<string> := [];
    assert none + a == a;
    AppendEmitted(none, a, 'w', kind);
    AppendEmitted(a, b, 'h', kind);
    AppendEmitted(a + b, c, 'q', kind);
    AppendEmitted(a + b + c, d, 'c', kind);
  }

  /** Four pieces with entries of kinds w, h, q and c, in that order. */
  lemma PiecesInOrder(tw: bool, ew: string, th: bool, eh: string, tq: bool, eq: string, tc: bool, ec: string)
    requires |ew| >= 2 && ew[0] == 'w' && ew[1] == '_' && |eh| >= 2 && eh[0] == 'h' && eh[1] == '_'
    requires |eq| >= 2 && eq[0] == 'q' && eq[1] == '_' && |ec| >= 2 && ec[0] == 'c' && ec[1] == '_'
    ensures var ts := Piece(tw, ew) + Piece(th, eh) + Piece(tq, eq) + Piece(tc, ec);
      && |ts| <= 4 && RankedBelow(ts, 4)
      && (Emitted(ts, 'w') <==> tw) && (Emitted(ts, 'h') <==> th)
      && (Emitted(ts, 'q') <==> tq) && (Emitted(ts, 'c') <==> tc)
  {
    var pw, ph, pq, pc := Piece(tw, ew), Piece(th, eh), Piece(tq, eq), Piece(tc, ec);
    PieceKind(tw, 'w', ew);
    PieceKind(th, 'h', eh);
    PieceKind(tq, 'q', eq);
    PieceKind(tc, 'c', ec);
    FourRanked(pw, ph, pq, pc);
    FourEmitted(pw, ph, pq, pc, 'w', pw);
    FourEmitted(pw, ph, pq, pc, 'h', ph);
    FourEmitted(pw, ph, pq, pc, 'q', pq);
    FourEmitted(pw, ph, pq, pc, 'c', pc);
  }

  /** The entries are the four pieces, each of its own kind. */
  lemma TransformationPieces(o: UrlOptions)
    ensures var ts := Transformations(Some(o));
      && |ts| <= 4 && RankedBelow(ts, 4)
      && (Emitted(ts, 'w') <==> TruthyNum(o.width)) && (Emitted(ts, 'h') <==> TruthyNum(o.height))
      && (Emitted(ts, 'q') <==> Truthy(o.quality)) && (Emitted(ts, 'c') <==> Truthy(o.crop))
  {
    var w := if o.width.Some? then IntToString(o.width.value) else "";
    var h := if o.height.Some? then IntToString(o.height.value) else "";
    PiecesInOrder(TruthyNum(o.width), "w_" + w, TruthyNum(o.height), "h_" + h,
                  Truthy(o.quality), "q_" + o.quality.GetOr(""), Truthy(o.crop), "c_" + o.crop.GetOr(""));
  }

  /** Without options, or with only falsy ones, the URL has no transformation segment. */
  lemma PlainUrlWithoutOptions(cloudName: string, publicId: string, options: Option<UrlOptions>)
    requires options.None? || !(TruthyNum(options.value.width) || TruthyNum(options.value.height)
                                || Truthy(options.value.quality) || Truthy(options.value.crop))
    ensures CloudinaryUrl(cloudName, publicId, options) == DeliveryBase + cloudName + UploadPath + publicId
  {
    assert Transformations(options) == [];
  }

  /** At most four entries, each a kind letter and `_`, in strictly increasing rank:
      the order never depends on the order the options were given in. */
  lemma TransformationOrder(options: Option<UrlOptions>)
    ensures var ts := Transformations(options);
      && |ts| <= 4
      && (forall i :: 0 <= i < |ts| ==> |ts[i]| >= 2 && ts[i][0] in Kinds && ts[i][1] == '_')
      && (forall i, j :: 0 <= i < j < |ts| ==> Rank(ts[i][0]) < Rank(ts[j][0]))
  {
    if options.Some? { TransformationPieces(options.value); }
  }

  /** An option is emitted exactly when it is truthy, with its value after the prefix:
      a width of 0 or an empty quality or crop is dropped. */
  lemma TransformationPresence(o: UrlOptions)
    ensures var ts := Transformations(Some(o));
      && (Emitted(ts, 'w') <==> TruthyNum(o.width))
      && (Emitted(ts, 'h') <==> TruthyNum(o.height))
      && (Emitted(ts, 'q') <==> Truthy(o.quality))
      && (Emitted(ts, 'c') <==> Truthy(o.crop))
      && (TruthyNum(o.width) ==> "w_" + IntToString(o.width.value) in ts)
      && (TruthyNum(o.height) ==> "h_" + IntToString(o.height.value) in ts)
      && (Truthy(o.quality) ==> "q_" + o.quality.value in ts)
      && (Truthy(o.crop) ==> "c_" + o.crop.value in ts)
  {
    TransformationPieces(o);
  }

  /** With some options, the URL is the base, the entries joined by `,`, one `/`,
      and the public id; when no value holds a `,` the segment splits back into the
      entries. */
  lemma SegmentSplitsBack(cloudName: string, publicId: string, o: UrlOptions)
    requires TruthyNum(o.width) || TruthyNum(o.height) || Truthy(o.quality) || Truthy(o.crop)
    requires o.quality.Some? ==> ',' !in o.quality.value
    requires o.crop.Some? ==> ',' !in o.crop.value
    ensures var ts := Transformations(Some(o));
      && CloudinaryUrl(cloudName, publicId, Some(o)) == DeliveryBase + cloudName + UploadPath + Join(ts, ",") + "/" + publicId
      && Split(Join(ts, ","), ',') == ts
  {
    var ts := Transformations(Some(o));
    if TruthyNum(o.width) { NoCommaInNumber(o.width.value); }
    if TruthyNum(o.height) { NoCommaInNumber(o.height.value); }
    forall i | 0 <= i < |ts| ensures ',' !in ts[i] {
    }
    SplitJoin(ts, ',');
  }

  lemma NoCommaInNumber(n: int)
    ensures ',' !in IntToString(n)
  {
    var d := NatToString(if n < 0 then -n else n);
    assert forall i :: 0 <= i < |d| ==> d[i] != ',';
  }

  // ---- uploadImage ----

  const UploadFailed := "Upload failed"

  /** How the upload request ended: a value was thrown (an `Error` with its
      message, or something else), the response was not ok (with the message
      of its error body, if any), or it was ok with the given body fields. */
  datatype UploadResponse =
    | Threw(errorMessage: Option<string>)
    | Rejected(bodyMessage: Option<string>)
    | Accepted(secureUrl: Option<string>, publicId: Option<string>)

  datatype UploadResult = UploadResult(success: bool, url: Option<string>, publicId: Option<string>, error: Option<string>)

  /** The result `uploadImage` returns for a response. */
  function UploadImage(response: UploadResponse): (r: UploadResult)
    ensures r.success <==> response.Accepted?
    ensures r.success ==> r.url == response.secureUrl && r.publicId == response.publicId && r.error.None?
    ensures !r.success ==> r.url.None? && r.publicId.None? && r.error.Some?
    ensures response.Rejected? ==> r.error == Some(StrOr(response.bodyMessage, UploadFailed))
  {
    match response
    case Accepted(u, p) => UploadResult(true, u, p, None)
    case Rejected(m) =>
      // the thrown Error carries `message || 'Upload failed'` and is caught below
      UploadResult(false, None, None, Some(StrOr(m, UploadFailed)))
    case Threw(m) => UploadResult(false, None, None, Some(m.GetOr(UploadFailed)))
  }

  /** A failed upload always carries a message, and a rejection without one says
      "Upload failed". */
  lemma UploadFailureHasMessage(response: UploadResponse)
    requires !response.Accepted?
    ensures UploadImage(response).error.Some?
    ensures response == Rejected(None) || response == Rejected(Some("")) || response == Threw(None)
            ==> UploadImage(response).error == Some(UploadFailed)
  {
  }

  // ---- deleteImage ----

  /** How the destroy request ended, once it was sent. */
  datatype DestroyResponse = DestroyThrew | DestroyRejected | DestroyAnswered(result: string)

  /** `deleteImage(publicId)`: `sent` says whether the request went out, which
      happens only with both credentials configured; every path returns true so that
      the database row is deleted anyway. */
  method DeleteImage(apiKey: Option<string>, apiSecret: Option<string>, response: DestroyResponse)
    returns (sent: bool, deleted: bool)
    ensures deleted
    ensures sent <==> Truthy(apiKey) && Truthy(apiSecret)
  {
    if !Truthy(apiKey) || !Truthy(apiSecret) {
      // credentials missing: skip the remote deletion
      return false, true;
    }
    sent := true;
    match response
    case DestroyThrew =>
      deleted := true;
    case DestroyRejected =>
      // the thrown Error is caught and the call still reports true
      deleted := true;
    case DestroyAnswered(result) =>
      // a result other than "ok" is only logged
      deleted := true;
  }
}
