/**
 * Coupon helpers: the coupon name inside a log line, the minutes a coupon name
 * grants, and the "N시간 M분" rendering of a number of minutes.
 */
module CouponUtils {
  import opened Wrappers
  import opened Text

  /** The tag that precedes a coupon name in a log line's content. */
  const CouponTag: string := "쿠폰:"
  /** The unit marker that follows a number of minutes. */
  const MinuteMark: char := '분'

  /** `parse_coupon_name`: the text after the first coupon tag, stripped; None without a tag. */
  function ParseCouponName(content: string): (r: Option<string>)
    ensures r.None? <==> !Contains(content, CouponTag)
    ensures r.Some? ==> Trimmed(r.value) && |r.value| <= |content| - |CouponTag|
  {
    match Find(content, CouponTag)
    case None => None
    case Some(i) => Some(Strip(content[i + |CouponTag|..]))
  }

  /** The tag never overlaps itself: an occurrence cannot start inside a preceding copy's tail. */
  lemma TagNotAtTail(p: string, rest: string, j: int)
    requires |p| - |CouponTag| < j < |p|
    ensures !OccursAt(p + CouponTag + rest, CouponTag, j)
  {
    var s := p + CouponTag + rest;
    assert |CouponTag| == 3 && CouponTag[1] == '폰' && CouponTag[2] == ':';
    assert s[|p|] == '쿠';
    if 0 <= j && j + 3 <= |s| {
      var w := s[j..j + 3];
      if j == |p| - 1 {
        assert w[1] == s[|p|];
      } else {
        assert w[2] == s[|p|];
      }
    }
  }

  /** Only the first tag splits the content: everything after it, later tags included, is the name. */
  lemma ParseSplitsAtFirstTag(p: string, rest: string)
    requires !Contains(p, CouponTag)
    ensures ParseCouponName(p + CouponTag + rest) == Some(Strip(rest))
  {
    var s := p + CouponTag + rest;
    assert OccursAt(s, CouponTag, |p|);
    forall j | 0 <= j < |p|
      ensures !OccursAt(s, CouponTag, j)
    {
      if j + |CouponTag| <= |p| {
        if OccursAt(s, CouponTag, j) {
          assert s[j..j + |CouponTag|] == p[j..j + |CouponTag|];
          assert OccursAt(p, CouponTag, j);
        }
      } else {
        TagNotAtTail(p, rest, j);
      }
    }
    assert s[|p| + |CouponTag|..] == rest;
  }

  /** A coupon granted as "쿠폰: " + name is parsed back to that name. */
  lemma ParseCouponNameOfGrant(name: string)
    requires Trimmed(name)
    ensures ParseCouponName("쿠폰: " + name) == Some(name)
  {
    GrantedContentParses(name);
    StripGrantedName(name);
  }

  lemma GrantedContentParses(name: string)
    ensures ParseCouponName("쿠폰: " + name) == Some(Strip(" " + name))
  {
    GrantContentSplits(name);
    NothingInEmpty();
    ParseSplitsAtFirstTag([], " " + name);
  }

  lemma StripGrantedName(name: string)
    requires Trimmed(name)
    ensures Strip(" " + name) == name
  {
    assert IsSpace(' ');
    StripAfterSpaces(" ", name);
  }

  lemma NothingInEmpty()
    ensures !Contains([], CouponTag)
  {
    assert forall i :: 0 <= i <= 0 ==> !OccursAt([], CouponTag, i);
  }

  lemma GrantContentSplits(name: string)
    ensures "쿠폰: " + name == [] + CouponTag + (" " + name)
  {
    assert "쿠폰: " == CouponTag + " ";
  }

  /** Content without the tag's first letter carries no coupon. */
  lemma NoCouponWithoutTagLetter(content: string)
    requires forall i :: 0 <= i < |content| ==> content[i] != '쿠'
    ensures ParseCouponName(content) == None
  {
    forall i | 0 <= i <= |content|
      ensures !OccursAt(content, CouponTag, i)
    {
      if i + 3 <= |content| {
        assert content[i..i + 3][0] == content[i];
      }
    }
  }

  /** The documented example of a stamp, which carries no coupon. */
  lemma ParseStampExample()
    ensures ParseCouponName("도장: 참 잘했어요") == None
  {
    NoCouponWithoutTagLetter("도장: 참 잘했어요");
  }

  /** End (exclusive) of the run of digits that starts at `i`. */
  function DigitRunEnd(s: string, i: nat): (j: nat)
    requires i <= |s|
    ensures i <= j <= |s| && (j == |s| || !IsDigit(s[j]))
    ensures forall k :: i <= k < j ==> IsDigit(s[k])
    decreases |s| - i
  {
    if i < |s| && IsDigit(s[i]) then DigitRunEnd(s, i + 1) else i
  }

  /** End (exclusive) of the run of whitespace that starts at `i`. */
  function SpaceRunEnd(s: string, i: nat): (j: nat)
    requires i <= |s|
    ensures i <= j <= |s| && (j == |s| || !IsSpace(s[j]))
    ensures forall k :: i <= k < j ==> IsSpace(s[k])
    decreases |s| - i
  {
    if i < |s| && IsSpace(s[i]) then SpaceRunEnd(s, i + 1) else i
  }

  /**
   * `(\d+)\s*분` matches at `i`. Greedy runs decide it: giving back a digit leaves a digit
   * where `\s` or `분` is needed, and giving back a space leaves a space where `분` is needed.
   */
  predicate MinutesAt(s: string, i: nat) {
    i < |s| && IsDigit(s[i]) &&
    var k := SpaceRunEnd(s, DigitRunEnd(s, i));
    k < |s| && s[k] == MinuteMark
  }

  /** The number captured by a match at `i`. */
  function CapturedMinutes(s: string, i: nat): nat
    requires i <= |s|
  {
    ParseDecimal(s[i..DigitRunEnd(s, i)])
  }

  /** Leftmost match position at or after `from` (`re.search`). */
  function SearchMinutes(s: string, from: nat): (r: Option<nat>)
    requires from <= |s|
    ensures r.Some? ==> from <= r.value && MinutesAt(s, r.value)
    ensures r.Some? ==> forall j :: from <= j < r.value ==> !MinutesAt(s, j)
    ensures r.None? ==> forall j :: from <= j ==> !MinutesAt(s, j)
    decreases |s| - from
  {
    if from == |s| then None
    else if MinutesAt(s, from) then Some(from)
    else SearchMinutes(s, from + 1)
  }

  /** `extract_minutes_from_coupon`: the number of the leftmost "<digits> 분", or 0 without one. */
  function ExtractMinutes(name: string): (r: nat)
    ensures (forall j :: 0 <= j < |name| ==> !MinutesAt(name, j)) ==> r == 0
    ensures forall j :: 0 <= j < |name| && MinutesAt(name, j) && (forall k :: 0 <= k < j ==> !MinutesAt(name, k))
                        ==> r == CapturedMinutes(name, j)
  {
    match SearchMinutes(name, 0)
    case None => 0
    case Some(i) => CapturedMinutes(name, i)
  }

  /** `format_minutes`: "H시간 M분", "H시간" when M is 0, or "M분" below an hour. */
  function FormatMinutes(total: int): string {
    if total >= 60 then
      var hours := total / 60;
      var mins := total % 60;
      if mins > 0 then IntToDecimal(hours) + "시간 " + IntToDecimal(mins) + "분"
      else IntToDecimal(hours) + "시간"
    else IntToDecimal(total) + "분"
  }

  /** A match at `i` whose digits end at `e`, right before `분`, is the one found when nothing matches earlier. */
  lemma MinutesAtRun(s: string, i: nat, e: nat)
    requires i < e < |s| && s[e] == MinuteMark
    requires forall k :: i <= k < e ==> IsDigit(s[k])
    requires forall j :: 0 <= j < i ==> !MinutesAt(s, j)
    ensures ExtractMinutes(s) == ParseDecimal(s[i..e])
  {
    assert DigitRunEnd(s, i) == e;
    assert SpaceRunEnd(s, e) == e;
    assert MinutesAt(s, i);
  }

  /** Digits running up to a letter that is neither whitespace nor `분` never start a match. */
  lemma NoMinutesInRun(s: string, j: nat, e: nat)
    requires j < e < |s| && !IsDigit(s[e]) && !IsSpace(s[e]) && s[e] != MinuteMark
    requires forall k :: j <= k < e ==> IsDigit(s[k])
    ensures !MinutesAt(s, j)
  {
    assert DigitRunEnd(s, j) == e;
    assert SpaceRunEnd(s, e) == e;
  }

  lemma FormatBelowHour(n: nat)
    requires n < 60
    ensures FormatMinutes(n) == NatToDecimal(n) + "분"
  {
  }

  lemma FormatWholeHours(n: nat)
    requires n >= 60 && n % 60 == 0
    ensures FormatMinutes(n) == NatToDecimal(n / 60) + "시간"
  {
  }

  lemma FormatHoursAndMinutes(n: nat)
    requires n >= 60 && n % 60 > 0
    ensures FormatMinutes(n) == NatToDecimal(n / 60) + "시간 " + NatToDecimal(n % 60) + "분"
  {
  }

  lemma ExtractBelowHour(d: string)
    requires AllDigits(d) && d != []
    ensures ExtractMinutes(d + "분") == ParseDecimal(d)
  {
    var s := d + "분";
    assert s[..|d|] == d;
    MinutesAtRun(s, 0, |d|);
  }

  /** No match starts in the hours or in the "시간" that follows them. */
  lemma NoMinutesBeforeHourMark(h: string, rest: string)
    requires AllDigits(h)
    ensures forall j :: 0 <= j < |h| + 2 ==> !MinutesAt(h + "시간" + rest, j)
  {
    var s := h + "시간" + rest;
    assert s[|h|] == '시' && s[|h| + 1] == '간';
    forall j | 0 <= j < |h| + 2
      ensures !MinutesAt(s, j)
    {
      if j < |h| {
        assert forall k :: j <= k < |h| ==> s[k] == h[k];
        NoMinutesInRun(s, j, |h|);
      }
    }
  }

  lemma ExtractWholeHours(h: string)
    requires AllDigits(h) && h != []
    ensures ExtractMinutes(h + "시간") == 0
  {
    assert h + "시간" == h + "시간" + [];
    NoMinutesBeforeHourMark(h, []);
  }

  /** A run of digits followed by `분` at the end of the text, after `p`. */
  lemma MinutesAtEnd(p: string, m: string)
    requires AllDigits(m) && m != []
    requires forall j :: 0 <= j < |p| ==> !MinutesAt(p + m + "분", j)
    ensures ExtractMinutes(p + m + "분") == ParseDecimal(m)
  {
    var s := p + m + "분";
    var i := |p|;
    assert s[i..i + |m|] == m;
    assert forall k :: i <= k < i + |m| ==> s[k] == m[k - i];
    assert s[i + |m|] == MinuteMark;
    MinutesAtRun(s, i, i + |m|);
  }

  lemma ExtractHoursAndMinutes(h: string, m: string)
    requires AllDigits(h) && h != [] && AllDigits(m) && m != []
    ensures ExtractMinutes(h + "시간 " + m + "분") == ParseDecimal(m)
  {
    var p := h + "시간 ";
    NoMinutesBeforeMinutes(h, m);
    MinutesAtEnd(p, m);
  }

  /** No match starts before the minutes that follow "시간 ". */
  lemma NoMinutesBeforeMinutes(h: string, m: string)
    requires AllDigits(h)
    ensures forall j :: 0 <= j < |h| + 3 ==> !MinutesAt(h + "시간 " + m + "분", j)
  {
    var s := h + "시간 " + m + "분";
    assert s == h + "시간" + (" " + m + "분");
    NoMinutesBeforeHourMark(h, " " + m + "분");
    assert !MinutesAt(s, |h| + 2) by {
      assert s[|h| + 2] == ' ';
    }
  }

  lemma ExtractFormattedBelowHour(n: nat)
    requires n < 60
    ensures ExtractMinutes(FormatMinutes(n)) == n % 60
  {
    var d := NatToDecimal(n);
    FormatBelowHour(n);
    ExtractBelowHour(d);
    DecimalRoundTrip(n);
    BelowHourModulo(n);
    assert ExtractMinutes(FormatMinutes(n)) == n;
  }

  lemma BelowHourModulo(n: nat)
    requires n < 60
    ensures n % 60 == n
  {
  }

  lemma ExtractFormattedWholeHours(n: nat)
    requires n >= 60 && n % 60 == 0
    ensures ExtractMinutes(FormatMinutes(n)) == n % 60
  {
    FormatWholeHours(n);
    ExtractWholeHours(NatToDecimal(n / 60));
  }

  lemma ExtractFormattedHoursAndMinutes(n: nat)
    requires n >= 60 && n % 60 > 0
    ensures ExtractMinutes(FormatMinutes(n)) == n % 60
  {
    FormatHoursAndMinutes(n);
    ExtractHoursAndMinutes(NatToDecimal(n / 60), NatToDecimal(n % 60));
    DecimalRoundTrip(n % 60);
  }

  /** Reading the minutes back from a formatted duration yields the minutes within the hour;
      below an hour, formatting and extracting are inverse. */
  lemma ExtractFormattedMinutes(n: nat)
    ensures ExtractMinutes(FormatMinutes(n)) == n % 60
  {
    if n < 60 {
      ExtractFormattedBelowHour(n);
    } else if n % 60 == 0 {
      ExtractFormattedWholeHours(n);
    } else {
      ExtractFormattedHoursAndMinutes(n);
    }
  }

  /** The documented example of a coupon granting twenty minutes. */
  lemma ExtractMinutesExample()
    ensures ExtractMinutes("게임쿠폰 20분") == 20
  {
    var s := "게임쿠폰 20분";
    forall j | 0 <= j < 5
      ensures !MinutesAt(s, j)
    {
      assert !IsDigit(s[j]);
    }
    assert s[5..7] == "20";
    MinutesAtRun(s, 5, 7);
  }

  /** The documented example of a coupon without minutes. */
  lemma ExtractNoMinutesExample()
    ensures ExtractMinutes("보너스쿠폰") == 0
  {
    var t := "보너스쿠폰";
    forall j | 0 <= j < |t|
      ensures !MinutesAt(t, j)
    {
      assert !IsDigit(t[j]);
    }
  }

  /** The documented examples of formatting. */
  lemma FormatMinutesExamples()
    ensures FormatMinutes(90) == "1시간 30분"
    ensures FormatMinutes(60) == "1시간"
    ensures FormatMinutes(45) == "45분"
  {
    FormatHoursAndMinutes(90);
    FormatWholeHours(60);
    FormatBelowHour(45);
  }
}
