/**
 * The student pages of the React client: the class-code normalisation and the class search of the
 * dashboard, the media URL resolution and the scan → selfie → done steps of the QR check-in page.
 * Camera, GPS, JSON parsing and the HTTP answers are inputs; rendering is not modelled.
 */
module Frontend {
  import opened Common
  import Student

  // -----------------------------------------------------------------------
  // Dashboard: joining a class
  // -----------------------------------------------------------------------

  /** The code the dashboard sends: trimmed, upper-cased, whitespace removed. */
  function ClientCode(code: string): string
  {
    RemoveSpaces(ToUpper(JsTrim(code)))
  }

  /** JavaScript `trim` leaves nothing exactly when the input is all whitespace. */
  lemma JsTrimEmpty(s: string)
    ensures JsTrim(s) == [] <==> forall i :: 0 <= i < |s| ==> RegexSpace(s[i])
  {
    var a := TrimStart(s, RegexSpace);
    assert a != [] ==> a[0] == s[|s| - |a|];
    assert a != [] ==> TrimEnd(a, RegexSpace) != [];
  }

  /** The outcome of submitting the join form: a message and no request, or the request's code. */
  datatype JoinAttempt = Refused(message: string) | Send(classCode: string)

  /**
   * `joinClass` before the request: an empty normalised code shows "Vui lòng nhập mã lớp" and
   * sends nothing. The code sent holds no whitespace and no lower-case letter, and is empty only
   * for input that is all whitespace.
   */
  function JoinRequest(code: string): (r: JoinAttempt)
    ensures r.Refused? <==> forall i :: 0 <= i < |code| ==> RegexSpace(code[i])
    ensures r.Refused? ==> r.message == "Vui lòng nhập mã lớp"
    ensures r.Send? ==>
      r.classCode != "" &&
      forall i :: 0 <= i < |r.classCode| ==> !RegexSpace(r.classCode[i]) && !IsLowerAscii(r.classCode[i])
  {
    var normalized := ClientCode(code);
    ClientCodeShape(code);
    if normalized == "" then Refused("Vui lòng nhập mã lớp") else Send(normalized)
  }

  /** The client's code is empty exactly for blank input, and holds no whitespace and no lower-case letter. */
  lemma ClientCodeShape(code: string)
    ensures ClientCode(code) == [] <==> forall i :: 0 <= i < |code| ==> RegexSpace(code[i])
    ensures forall i :: 0 <= i < |ClientCode(code)| ==> !RegexSpace(ClientCode(code)[i]) && !IsLowerAscii(ClientCode(code)[i])
  {
    JsTrimEmpty(code);
    var t := JsTrim(code);
    var u := ToUpper(t);
    Student.RemoveSpacesKeepsUpper(u);
    if t != [] {
      assert !RegexSpace(u[0]) && u[0] in u;
    }
  }

  /** Every character left by a trim is a character of the input. */
  lemma TrimKeepsChars(s: string, p: char -> bool)
    ensures forall c :: c in Trim(s, p) ==> c in s
  {
    var a := TrimStart(s, p);
    var t := TrimEnd(a, p);
    assert Trim(s, p) == t;
    forall c | c in t ensures c in s {
      var j :| 0 <= j < |t| && t[j] == c;
      assert a[j] == c;
      assert s[|s| - |a| + j] == c;
    }
  }

  /** The client's code consists of printable characters other than the space. */
  lemma ClientCodeChars(code: string)
    requires forall i :: 0 <= i < |code| ==> code[i] >= ' '
    ensures forall j :: 0 <= j < |ClientCode(code)| ==>
      !JavaTrimmed(ClientCode(code)[j]) && !IsLowerAscii(ClientCode(code)[j])
  {
    var t := JsTrim(code);
    TrimKeepsChars(code, RegexSpace);
    var u := ToUpper(t);
    forall j | 0 <= j < |u| ensures u[j] >= ' ' {
      assert t[j] in t;
    }
    RemoveSpacesPrintable(u);
    Student.RemoveSpacesKeepsUpper(u);
  }

  /** Without control characters, removing whitespace leaves only characters `trim` keeps. */
  lemma {:induction false} RemoveSpacesPrintable(u: string)
    requires forall i :: 0 <= i < |u| ==> u[i] >= ' '
    ensures forall i :: 0 <= i < |RemoveSpaces(u)| ==> !JavaTrimmed(RemoveSpaces(u)[i])
  {
    if u != [] {
      RemoveSpacesPrintable(u[1..]);
    }
  }

  /**
   * For typed input (no control characters), the server's own normalisation leaves the code the
   * client sends as it is: both sides agree on the code looked up.
   */
  lemma ServerKeepsClientCode(code: string)
    requires forall i :: 0 <= i < |code| ==> code[i] >= ' '
    ensures Student.NormalizeClassCode(Some(ClientCode(code))) == ClientCode(code)
  {
    var r := ClientCode(code);
    ClientCodeChars(code);
    TrimOfUntrimmed(r, JavaTrimmed);
    UpperOfUpperless(r);
    Student.RemoveSpacesOfSpaceless(r);
  }

  // -----------------------------------------------------------------------
  // Dashboard: searching the class list
  // -----------------------------------------------------------------------

  /** A class as the dashboard lists it; name and code may be missing. */
  datatype ClassCard = ClassCard(id: int, className: Option<string>, code: Option<string>)

  function OrEmpty(s: Option<string>): string
  {
    if s.None? then "" else s.value
  }

  /** A class matches a keyword when its lower-cased name or code contains it. */
  predicate Matches(c: ClassCard, kw: string)
  {
    Contains(ToLower(OrEmpty(c.className)), kw) || Contains(ToLower(OrEmpty(c.code)), kw)
  }

  /** `classes.filter(...)`: the matching classes in list order. */
  function KeepMatching(classes: seq<ClassCard>, kw: string): (r: seq<ClassCard>)
    ensures OrderedSubsequence(r, classes)
    ensures forall c :: c in r <==> c in classes && Matches(c, kw)
  {
    if classes == [] then []
    else
      var rest := KeepMatching(classes[1..], kw);
      if Matches(classes[0], kw) then [classes[0]] + rest else rest
  }

  /**
   * The `filtered` list: with a keyword that trims to nothing, the whole list; otherwise the
   * classes whose name or code contains the lower-cased trimmed keyword, in their order.
   */
  function Filtered(classes: seq<ClassCard>, q: string): (r: seq<ClassCard>)
    ensures JsTrim(q) == [] ==> r == classes
    ensures OrderedSubsequence(r, classes)
    ensures JsTrim(q) != [] ==>
      forall c :: c in r <==> c in classes && Matches(c, ToLower(JsTrim(q)))
  {
    var kw := ToLower(JsTrim(q));
    SubsequenceOfSelf(classes);
    if kw == "" then classes else KeepMatching(classes, kw)
  }

  /** Lower-casing forgets an earlier upper-casing. */
  lemma LowerOfUpper(s: string)
    ensures ToLower(ToUpper(s)) == ToLower(s)
  {
    forall i | 0 <= i < |s| ensures LowerChar(UpperChar(s[i])) == LowerChar(s[i]) {
    }
  }

  /** A class matches the lower-cased form of its own code. */
  lemma MatchesOwnCode(c: ClassCard)
    requires c.code.Some?
    ensures Matches(c, ToLower(c.code.value))
  {
    var low := ToLower(c.code.value);
    assert low[0..|low|] == low;
    assert InfixAt(low, low, 0);
  }

  /** Searching for a class's own code, in any case, keeps that class. */
  lemma SearchByCodeFindsClass(classes: seq<ClassCard>, c: ClassCard)
    requires c in classes && c.code.Some?
    requires c.code.value != [] && !RegexSpace(c.code.value[0]) && !RegexSpace(c.code.value[|c.code.value| - 1])
    ensures c in Filtered(classes, c.code.value)
    ensures c in Filtered(classes, ToUpper(c.code.value))
  {
    var code := c.code.value;
    TrimOfUntrimmed(code, RegexSpace);
    MatchesOwnCode(c);
    var up := ToUpper(code);
    assert !RegexSpace(up[0]) && !RegexSpace(up[|up| - 1]);
    TrimOfUntrimmed(up, RegexSpace);
    LowerOfUpper(code);
  }

  // -----------------------------------------------------------------------
  // Check-in page: media URLs
  // -----------------------------------------------------------------------

  /** `replace(/\/+$/, '')`. */
  function StripTrailingSlashes(s: string): (r: string)
    ensures StartsWith(s, r)
    ensures r == [] || r[|r| - 1] != '/'
    ensures forall i :: |r| <= i < |s| ==> s[i] == '/'
  {
    TrimEnd(s, c => c == '/')
  }

  /** `replace(/\/api\/?$/, '')`: a trailing "/api/" or "/api" is cut off. */
  function StripApi(s: string): (r: string)
    ensures EndsWith(s, "/api/") ==> s == r + "/api/"
    ensures !EndsWith(s, "/api/") && EndsWith(s, "/api") ==> s == r + "/api"
    ensures !EndsWith(s, "/api/") && !EndsWith(s, "/api") ==> r == s
  {
    if EndsWith(s, "/api/") then s[..|s| - 5]
    else if EndsWith(s, "/api") then s[..|s| - 4]
    else s
  }

  /** The server origin: the API base URL without trailing slashes and without its "/api". */
  function Origin(baseUrl: Option<string>): string
  {
    StripApi(StripTrailingSlashes(OrEmpty(baseUrl)))
  }

  /**
   * `resolveMediaUrl`: a missing or empty URL and a URL outside "/uploads/" are returned as
   * they are; an upload path is prefixed with the server origin.
   */
  function ResolveMediaUrl(url: Option<string>, baseUrl: Option<string>): (r: Option<string>)
    ensures (url.None? || url.value == "" || !StartsWith(url.value, "/uploads/")) ==> r == url
    ensures url.Some? && StartsWith(url.value, "/uploads/") ==>
      r.Some? && StartsWith(r.value, Origin(baseUrl)) && EndsWith(r.value, url.value) &&
      |r.value| == |Origin(baseUrl)| + |url.value|
  {
    if url.None? || url.value == "" then url
    else if StartsWith(url.value, "/uploads/") then
      var res := Origin(baseUrl) + url.value;
      assert res[..|Origin(baseUrl)|] == Origin(baseUrl);
      assert res[|res| - |url.value|..] == url.value;
      Some(res)
    else url
  }

  /** Trailing slashes after a part that does not end in '/' are exactly what is stripped. */
  lemma StripSlashesAfter(x: string, slashes: string)
    requires x == [] || x[|x| - 1] != '/'
    requires forall i :: 0 <= i < |slashes| ==> slashes[i] == '/'
    ensures StripTrailingSlashes(x + slashes) == x
  {
    var s := x + slashes;
    var r := StripTrailingSlashes(s);
    assert |x| > 0 ==> s[|x| - 1] == x[|x| - 1];
    assert |r| > 0 ==> s[|r| - 1] == r[|r| - 1];
    assert forall i :: |x| <= i < |s| ==> s[i] == '/';
    assert |r| == |x|;
    assert s[..|x|] == x;
  }

  /**
   * The origin of the usual base URLs: a host, with or without a trailing slash, "/api" or
   * "/api/", is the host itself.
   */
  lemma OriginOfHost(host: string)
    requires host != [] && host[|host| - 1] != '/' && !EndsWith(host, "/api")
    ensures Origin(Some(host)) == host
    ensures Origin(Some(host + "/")) == host
    ensures Origin(Some(host + "/api")) == host
    ensures Origin(Some(host + "/api/")) == host
  {
    StripSlashesAfter(host, "");
    assert host + "" == host;
    StripSlashesAfter(host, "/");
    StripSlashesAfter(host + "/api", "");
    assert host + "/api" + "" == host + "/api";
    StripSlashesAfter(host + "/api", "/");
    assert host + "/api" + "/" == host + "/api/";
    assert !EndsWith(host, "/api/");
    assert EndsWith(host + "/api", "/api");
    assert !EndsWith(host + "/api", "/api/");
    assert (host + "/api")[..|host + "/api"| - 4] == host;
  }

  /**
   * A resolved URL is not resolved a second time when the origin does not itself start with
   * '/' (an absolute origin such as "https://host").
   */
  lemma ResolveSettles(url: Option<string>, baseUrl: Option<string>)
    requires Origin(baseUrl) != [] && Origin(baseUrl)[0] != '/'
    ensures ResolveMediaUrl(ResolveMediaUrl(url, baseUrl), baseUrl) == ResolveMediaUrl(url, baseUrl)
  {
    var r := ResolveMediaUrl(url, baseUrl);
    if r.Some? && r != url {
      assert r.value[0] == Origin(baseUrl)[0];
    }
  }

  // -----------------------------------------------------------------------
  // Check-in page: the steps
  // -----------------------------------------------------------------------

  datatype Step = ScanStep | SelfieStep | DoneStep

  datatype Status = Idle | Loading | Success | Failure

  /** The fields read from the QR code's JSON; a session id is a number. */
  datatype QrPayload = QrPayload(sessionId: Option<int>, qrToken: Option<string>)

  /** Both fields present and truthy: a non-zero session id and a non-empty token. */
  predicate Complete(p: QrPayload)
  {
    p.sessionId.Some? && p.sessionId.value != 0 && p.qrToken.Some? && p.qrToken.value != ""
  }

  /** A GPS fix as the browser reports it. */
  datatype Position = Position(latitude: real, longitude: real, accuracy: real)

  /** The answer of the photo upload. */
  datatype UploadReply = PhotoUrl(url: Option<string>) | UploadError(serverMessage: Option<string>)

  /** The answer of the check-in request, with the distance fields it may carry. */
  datatype CheckInReply =
    | Accepted(attendanceId: Option<int>, distance: Option<real>, maxDistance: Option<real>)
    | Rejected(serverMessage: Option<string>, distance: Option<real>, maxDistance: Option<real>)

  /** The requests the page sends. */
  datatype Request =
    | UploadSelfie(dataUrl: string)
    | PostCheckIn(payload: QrPayload, latitude: real, longitude: real, photoUrl: string)

  const NoQrData := "Chưa có dữ liệu QR."
  const NoSelfie := "Bạn cần chụp hình khuôn mặt trước khi gửi."
  const NoGps := "Thiết bị không hỗ trợ GPS. Vui lòng thử trên điện thoại."
  const NoPosition := "Không lấy được vị trí GPS. Hãy bật GPS và thử lại."
  const UploadFailed := "Upload ảnh thất bại. Hãy thử chụp lại và gửi lại."
  const CheckInFailed := "Không điểm danh được. Hãy thử lại hoặc liên hệ giảng viên."
  const CheckedIn := "Điểm danh thành công!"
  const QrIncomplete := "Mã QR thiếu thông tin cần thiết."
  const QrInvalid := "Mã QR không hợp lệ."

  /** The largest GPS accuracy radius, in metres, the page accepts. */
  const MaxAccuracy: real := 80.0

  /** Decimal digits of a natural number, as a template string shows it. */
  function DecimalString(n: nat): (r: string)
    ensures |r| >= 1 && forall i :: 0 <= i < |r| ==> '0' <= r[i] <= '9'
  {
    if n < 10 then [('0' as int + n) as char]
    else DecimalString(n / 10) + [('0' as int + n % 10) as char]
  }

  /** The number a string of decimal digits denotes, most significant digit first. */
  function DigitsValue(s: string): int
  {
    if s == [] then 0 else DigitsValue(s[..|s| - 1]) * 10 + (s[|s| - 1] as int - '0' as int)
  }

  /** The digits shown denote the number itself, and only zero is shown with a leading '0'. */
  lemma {:induction false} DecimalStringValue(n: nat)
    ensures DigitsValue(DecimalString(n)) == n
    ensures DecimalString(n)[0] == '0' <==> n == 0
  {
    if n >= 10 {
      DecimalStringValue(n / 10);
      var r := DecimalString(n);
      assert r[..|r| - 1] == DecimalString(n / 10);
      assert r[0] == DecimalString(n / 10)[0];
    }
  }

  function InaccurateMessage(accuracy: real): string
    requires accuracy > MaxAccuracy
  {
    "Vị trí hiện tại chưa chính xác (±" + DecimalString(Round(accuracy)) +
    "m). Hãy bật \"Độ chính xác cao\" (High accuracy) và thử lại."
  }

  /** The message of a failed request: the server's, when it has one, or the page's default. */
  function ServerMessageOr(serverMessage: Option<string>, fallback: string): (m: string)
    ensures serverMessage.Some? && serverMessage.value != "" ==> m == serverMessage.value
    ensures serverMessage.None? || serverMessage.value == "" ==> m == fallback
  {
    if serverMessage.Some? && serverMessage.value != "" then serverMessage.value else fallback
  }

  /** The guards of `handleSubmitAttendance` that come before the upload all pass. */
  predicate Uploads(payload: Option<QrPayload>, selfie: Option<string>, hasGeolocation: bool,
                    position: Option<Position>)
  {
    payload.Some? && selfie.Some? && selfie.value != "" && hasGeolocation &&
    position.Some? && position.value.accuracy <= MaxAccuracy
  }

  /** The state of the QR check-in page. */
  class ScanPage {
    var step: Step
    var status: Status
    var message: string
    var payload: Option<QrPayload>
    var attendance: Option<int>
    var distance: Option<real>
    var maxDistance: Option<real>
    var selfie: Option<string>

    /** Past the scan step the page holds a payload, and a stored payload is complete. */
    ghost predicate Valid()
      reads this
    {
      (step != ScanStep ==> payload.Some?) && (payload.Some? ==> Complete(payload.value))
    }

    /** The state of a fresh page and of `resetAll`. */
    ghost predicate Initial()
      reads this
    {
      step == ScanStep && status == Idle && message == "" && payload.None? && attendance.None? &&
      selfie.None? && distance.None? && maxDistance.None?
    }

    constructor ()
      ensures Initial() && Valid()
    {
      step := ScanStep;
      status := Idle;
      message := "";
      payload := None;
      attendance := None;
      selfie := None;
      distance := None;
      maxDistance := None;
    }

    /**
     * `handleScanFromCamera`: ignored outside the scan step, on a scanner error and without text;
     * text that is not a JSON object is "Mã QR không hợp lệ."; a payload missing its session id or
     * token is "Mã QR thiếu thông tin cần thiết." and the page stays at the scan step; a complete
     * payload is kept and the page moves to the selfie step.
     */
    method HandleScan(scanError: bool, text: Option<string>, parse: string -> Option<QrPayload>)
      requires Valid()
      modifies this
      ensures Valid()
      ensures attendance == old(attendance) && selfie == old(selfie)
      ensures distance == old(distance) && maxDistance == old(maxDistance)
      ensures old(step) != ScanStep || scanError || text.None? || text.value == "" ==>
        step == old(step) && status == old(status) && message == old(message) && payload == old(payload)
      ensures old(step) == ScanStep && !scanError && text.Some? && text.value != "" ==>
        var parsed := parse(text.value);
        (parsed.None? ==>
          step == ScanStep && status == Failure && message == QrInvalid && payload == old(payload)) &&
        (parsed.Some? && !Complete(parsed.value) ==>
          step == ScanStep && status == Failure && message == QrIncomplete && payload == old(payload)) &&
        (parsed.Some? && Complete(parsed.value) ==>
          step == SelfieStep && status == Idle && message == "" && payload == parsed)
    {
      if step != ScanStep || scanError || text.None? || text.value == "" {
        return;
      }
      var parsed := parse(text.value);
      if parsed.None? {
        status := Failure;
        message := QrInvalid;
        return;
      }
      if !Complete(parsed.value) {
        status := Failure;
        message := QrIncomplete;
        return;
      }
      payload := parsed;
      status := Idle;
      message := "";
      step := SelfieStep;
    }

    /**
     * `handleCaptureSelfie`: does nothing while there is no video element; otherwise keeps the
     * captured image, given here as `dataUrl`.
     */
    method CaptureSelfie(hasVideo: bool, dataUrl: string)
      requires Valid()
      modifies this
      ensures Valid()
      ensures !hasVideo ==> selfie == old(selfie) && message == old(message)
      ensures hasVideo ==>
        selfie == Some(dataUrl) && message == "Đã chụp ảnh, bấm \"Gửi điểm danh\" để hoàn tất."
      ensures step == old(step) && status == old(status) && payload == old(payload)
      ensures attendance == old(attendance) && distance == old(distance) && maxDistance == old(maxDistance)
    {
      if !hasVideo {
        return;
      }
      selfie := Some(dataUrl);
      message := "Đã chụp ảnh, bấm \"Gửi điểm danh\" để hoàn tất.";
    }

    /**
     * `handleSubmitAttendance`, run to its end: refused without a payload, without a selfie and
     * without geolocation; then without a position, and with an accuracy above 80 m before
     * anything is uploaded; a missing photo URL stops before the check-in. An accepted check-in
     * moves the page to the done step; every other outcome leaves the step as it was. The
     * requests sent are returned.
     */
    method HandleSubmit(hasGeolocation: bool, position: Option<Position>, upload: UploadReply,
                        reply: CheckInReply) returns (sent: seq<Request>)
      requires Valid()
      modifies this
      ensures Valid()
      ensures payload == old(payload) && selfie == old(selfie)
      ensures status != Success ==> step == old(step) && attendance == old(attendance)
      ensures old(payload).None? ==> sent == [] && status == Failure && message == NoQrData
      ensures old(payload).Some? && (old(selfie).None? || old(selfie).value == "") ==>
        sent == [] && status == Failure && message == NoSelfie
      ensures old(payload).Some? && old(selfie).Some? && old(selfie).value != "" ==>
        (!hasGeolocation ==> sent == [] && status == Failure && message == NoGps) &&
        (hasGeolocation && position.None? ==> sent == [] && status == Failure && message == NoPosition) &&
        (hasGeolocation && position.Some? && position.value.accuracy > MaxAccuracy ==>
          sent == [] && status == Failure && message == InaccurateMessage(position.value.accuracy)) &&
        (hasGeolocation && position.Some? && position.value.accuracy <= MaxAccuracy ==> |sent| >= 1)
      ensures Uploads(old(payload), old(selfie), hasGeolocation, position) && upload.UploadError? ==>
        sent == [UploadSelfie(old(selfie).value)] && status == Failure &&
        message == ServerMessageOr(upload.serverMessage, CheckInFailed) && distance.None? && maxDistance.None?
      ensures Uploads(old(payload), old(selfie), hasGeolocation, position) &&
              upload.PhotoUrl? && (upload.url.None? || upload.url.value == "") ==>
        sent == [UploadSelfie(old(selfie).value)] && status == Failure && message == UploadFailed
      ensures Uploads(old(payload), old(selfie), hasGeolocation, position) &&
              upload.PhotoUrl? && upload.url.Some? && upload.url.value != "" ==>
        sent == [UploadSelfie(old(selfie).value),
                 PostCheckIn(old(payload).value, position.value.latitude, position.value.longitude, upload.url.value)]
      ensures |sent| == 2 && reply.Rejected? ==>
        status == Failure && message == ServerMessageOr(reply.serverMessage, CheckInFailed) &&
        distance == reply.distance && maxDistance == reply.maxDistance
      ensures !upload.UploadError? && |sent| < 2 ==> distance == old(distance) && maxDistance == old(maxDistance)
      ensures forall i :: 0 <= i < |sent| && sent[i].PostCheckIn? ==>
        Complete(sent[i].payload) && sent[i].photoUrl != "" &&
        upload == PhotoUrl(Some(sent[i].photoUrl))
      ensures status == Success <==> |sent| == 2 && reply.Accepted?
      ensures status == Success ==>
        step == DoneStep && message == CheckedIn && attendance == reply.attendanceId &&
        distance == reply.distance && maxDistance == reply.maxDistance
    {
      sent := [];
      if payload.None? {
        status := Failure;
        message := NoQrData;
        return;
      }
      if selfie.None? || selfie.value == "" {
        status := Failure;
        message := NoSelfie;
        return;
      }
      if !hasGeolocation {
        status := Failure;
        message := NoGps;
        return;
      }
      status := Loading;
      message := "Đang gửi dữ liệu điểm danh...";
      if position.None? {
        status := Failure;
        message := NoPosition;
        return;
      }
      sent := OnPosition(position.value, upload, reply);
    }

    /**
     * The success callback of `getCurrentPosition`: an accuracy above 80 m stops before anything
     * is sent; otherwise the selfie is uploaded, and only a non-empty photo URL leads to the
     * check-in request, which carries the payload, the coordinates and that URL.
     */
    method OnPosition(pos: Position, upload: UploadReply, reply: CheckInReply) returns (sent: seq<Request>)
      requires Valid() && payload.Some? && selfie.Some? && selfie.value != ""
      modifies this
      ensures Valid()
      ensures payload == old(payload) && selfie == old(selfie)
      ensures status != Success ==> step == old(step) && attendance == old(attendance)
      ensures pos.accuracy > MaxAccuracy ==>
        sent == [] && status == Failure && message == InaccurateMessage(pos.accuracy)
      ensures pos.accuracy <= MaxAccuracy && upload.UploadError? ==>
        sent == [UploadSelfie(selfie.value)] && status == Failure &&
        message == ServerMessageOr(upload.serverMessage, CheckInFailed) && distance.None? && maxDistance.None?
      ensures pos.accuracy <= MaxAccuracy && upload.PhotoUrl? && (upload.url.None? || upload.url.value == "") ==>
        sent == [UploadSelfie(selfie.value)] && status == Failure && message == UploadFailed
      ensures pos.accuracy <= MaxAccuracy && upload.PhotoUrl? && upload.url.Some? && upload.url.value != "" ==>
        sent == [UploadSelfie(selfie.value), PostCheckIn(payload.value, pos.latitude, pos.longitude, upload.url.value)]
      ensures |sent| == 2 && reply.Rejected? ==>
        status == Failure && message == ServerMessageOr(reply.serverMessage, CheckInFailed) &&
        distance == reply.distance && maxDistance == reply.maxDistance
      ensures !upload.UploadError? && |sent| < 2 ==> distance == old(distance) && maxDistance == old(maxDistance)
      ensures status == Success <==> |sent| == 2 && reply.Accepted?
      ensures status == Success ==>
        step == DoneStep && message == CheckedIn && attendance == reply.attendanceId &&
        distance == reply.distance && maxDistance == reply.maxDistance
    {
      if pos.accuracy > MaxAccuracy {
        status := Failure;
        message := InaccurateMessage(pos.accuracy);
        return [];
      }
      sent := [UploadSelfie(selfie.value)];
      if upload.UploadError? {
        status := Failure;
        distance := None;
        maxDistance := None;
        message := ServerMessageOr(upload.serverMessage, CheckInFailed);
        return;
      }
      if upload.url.None? || upload.url.value == "" {
        status := Failure;
        message := UploadFailed;
        return;
      }
      sent := [UploadSelfie(selfie.value), PostCheckIn(payload.value, pos.latitude, pos.longitude, upload.url.value)];
      if reply.Rejected? {
        status := Failure;
        distance := reply.distance;
        maxDistance := reply.maxDistance;
        message := ServerMessageOr(reply.serverMessage, CheckInFailed);
        return;
      }
      status := Success;
      message := CheckedIn;
      attendance := reply.attendanceId;
      distance := reply.distance;
      maxDistance := reply.maxDistance;
      step := DoneStep;
    }

    /** `resetAll`: back to the state of a fresh page. */
    method ResetAll()
      modifies this
      ensures Initial() && Valid()
    {
      step := ScanStep;
      status := Idle;
      message := "";
      payload := None;
      attendance := None;
      selfie := None;
      distance := None;
      maxDistance := None;
    }
  }
}
