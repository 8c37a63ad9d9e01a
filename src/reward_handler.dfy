/**
 * Granting rewards: every grant is a row appended to the Logs sheet through
 * `log_activity`, a stamp as a "Mission" row and a coupon as a "Coupon" row.
 */
module RewardHandler {
  import opened Wrappers
  import opened Text
  import opened Sheet
  import opened DbManager
  import CouponUtils

  const StampPrefix := "도장: "
  const CouponPrefix := "쿠폰: "

  function StampRow(now: string, userName: string, stampType: string, qty: int): Row {
    LogRow(now, userName, "Mission", StampPrefix + stampType, qty)
  }

  function CouponRow(now: string, userName: string, couponType: string, qty: int): Row {
    LogRow(now, userName, "Coupon", CouponPrefix + couponType, qty)
  }

  /**
   * The rows `grant_final_approval_rewards` logs, in order: a stamp row when stamps are granted,
   * then a coupon row when coupons are; each `log_activity` call reads its own clock.
   */
  function FinalRewardRows(userName: string, stampType: string, stampQty: int, couponType: string, couponQty: int,
                           stampTime: string, couponTime: string): (rows: seq<Row>)
    ensures StampRow(stampTime, userName, stampType, stampQty) in rows <==> stampQty > 0
    ensures CouponRow(couponTime, userName, couponType, couponQty) in rows <==> couponQty > 0
    ensures |rows| == (if stampQty > 0 then 1 else 0) + (if couponQty > 0 then 1 else 0)
    ensures forall r :: r in rows ==> r.Keys != {}
    ensures stampQty > 0 && couponQty > 0 ==>
      rows == [StampRow(stampTime, userName, stampType, stampQty), CouponRow(couponTime, userName, couponType, couponQty)]
  {
    var stamp := StampRow(stampTime, userName, stampType, stampQty);
    var coupon := CouponRow(couponTime, userName, couponType, couponQty);
    assert stamp != coupon by {
      assert stamp["Type"] != coupon["Type"];
    }
    (if stampQty > 0 then [stamp] else []) + (if couponQty > 0 then [coupon] else [])
  }

  /** Logs after appending the rows one `log_activity` call at a time, each write succeeding. */
  function AppendAll(t: Table, rows: seq<Row>): (t': Table)
    requires forall r :: r in rows ==> r.Keys != {}
    ensures rows != [] ==> t'.rows == (if IsEmpty(t) then [] else t.rows) + rows
    ensures rows == [] ==> t' == t
    decreases |rows|
  {
    if rows == [] then t
    else
      var t1 := AppendRow(t, rows[0]);
      assert rows[0].Keys <= t1.columns && !IsEmpty(t1);
      AppendAll(t1, rows[1..])
  }

  /** `grant_final_approval_rewards`: always True; the log grows by the rows of the positive quantities. */
  method GrantFinalApprovalRewards(db: DataManager, userName: string, stampType: string, stampQty: int,
                                   couponType: string, couponQty: int, stampTime: string, couponTime: string)
    returns (ok: bool)
    modifies db`sheets
    ensures ok
    ensures var rows := FinalRewardRows(userName, stampType, stampQty, couponType, couponQty, stampTime, couponTime);
      db.sheets == if rows == [] then old(db.sheets)
                   else db.AfterWrite(old(db.sheets), LogsSheet, AppendAll(old(db.GetData(LogsSheet)), rows))
  {
    ghost var logs := db.GetData(LogsSheet);
    ghost var stamp := StampRow(stampTime, userName, stampType, stampQty);
    ghost var coupon := CouponRow(couponTime, userName, couponType, couponQty);
    if stampQty > 0 {
      db.LogActivity(userName, "Mission", StampPrefix + stampType, stampQty, stampTime);
    }
    ghost var middle := db.sheets;
    if couponQty > 0 {
      db.LogActivity(userName, "Coupon", CouponPrefix + couponType, couponQty, couponTime);
    }
    ghost var rows := FinalRewardRows(userName, stampType, stampQty, couponType, couponQty, stampTime, couponTime);
    assert "Type" in stamp && "Type" in coupon;
    if stampQty > 0 && couponQty > 0 {
      assert rows == [stamp, coupon];
      AppendAllTwo(logs, stamp, coupon);
      WrittenTwice(old(db.sheets), LogsSheet, AppendRow(logs, stamp), AppendRow(SheetOf(middle, LogsSheet), coupon),
                   AppendAll(logs, [stamp, coupon]), db.writable);
    } else if stampQty > 0 {
      assert rows == [stamp];
      AppendAllOne(logs, stamp);
    } else if couponQty > 0 {
      assert rows == [coupon];
      AppendAllOne(logs, coupon);
    } else {
      assert rows == [];
    }
    ok := true;
  }

  lemma AppendAllOne(t: Table, r: Row)
    requires r.Keys != {}
    ensures AppendAll(t, [r]) == AppendRow(t, r)
  {
    assert [r][1..] == [];
  }

  lemma AppendAllTwo(t: Table, r1: Row, r2: Row)
    requires r1.Keys != {} && r2.Keys != {}
    ensures AppendAll(t, [r1, r2]) == AppendRow(AppendRow(t, r1), r2)
  {
    assert [r1, r2][1..] == [r2];
    AppendAllOne(AppendRow(t, r1), r2);
  }

  /** Two writes of the same sheet leave what the second one wrote. */
  lemma WrittenTwice(before: map<string, Table>, name: string, t1: Table, t2: Table, t: Table, writable: bool)
    requires writable ==> t2 == t
    ensures Written(Written(before, name, t1, writable), name, t2, writable) == Written(before, name, t, writable)
  {
    if writable {
      assert before[name := t1][name := t2] == before[name := t];
    }
  }

  /** `grant_stamp`: exactly one "Mission" row, whatever the sign of the quantity. */
  method GrantStamp(db: DataManager, userName: string, stampType: string, quantity: int, now: string) returns (ok: bool)
    modifies db`sheets
    ensures ok
    ensures db.sheets == db.AfterWrite(old(db.sheets), LogsSheet,
                                       AppendRow(old(db.GetData(LogsSheet)), StampRow(now, userName, stampType, quantity)))
  {
    db.LogActivity(userName, "Mission", StampPrefix + stampType, quantity, now);
    ok := true;
  }

  /** `grant_coupon`: exactly one "Coupon" row, whatever the sign of the quantity. */
  method GrantCoupon(db: DataManager, userName: string, couponType: string, quantity: int, now: string) returns (ok: bool)
    modifies db`sheets
    ensures ok
    ensures db.sheets == db.AfterWrite(old(db.sheets), LogsSheet,
                                       AppendRow(old(db.GetData(LogsSheet)), CouponRow(now, userName, couponType, quantity)))
  {
    db.LogActivity(userName, "Coupon", CouponPrefix + couponType, quantity, now);
    ok := true;
  }

  /** The content of a granted coupon parses back to the coupon type, when the type has no surrounding whitespace. */
  lemma GrantedCouponParsesBack(now: string, userName: string, couponType: string, qty: int)
    requires Trimmed(couponType)
    ensures CouponUtils.ParseCouponName(CouponRow(now, userName, couponType, qty)["Content"].s) == Some(couponType)
  {
    CouponUtils.ParseCouponNameOfGrant(couponType);
  }

  /** For a stamp type without '쿠', the stamp row's content carries no coupon tag, so such a stamp never shows up as a coupon. */
  lemma StampIsNoCoupon(now: string, userName: string, stampType: string, qty: int)
    requires forall i :: 0 <= i < |stampType| ==> stampType[i] != '쿠'
    ensures CouponUtils.ParseCouponName(StampRow(now, userName, stampType, qty)["Content"].s) == None
  {
    var content := StampPrefix + stampType;
    forall i | 0 <= i < |content|
      ensures content[i] != '쿠'
    {
      if i >= |StampPrefix| {
        assert content[i] == stampType[i - |StampPrefix|];
      }
    }
    CouponUtils.NoCouponWithoutTagLetter(content);
  }
}
