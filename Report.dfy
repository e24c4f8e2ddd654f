/**
 * The toast the popup shows after a save or a restore: its text and whether it is styled
 * as a success or as an error. Counts are written in decimal; missing container names are
 * joined with ", ".
 */
module Report {
  import opened Containers
  import opened Tabs
  import opened Reconciler
  import opened Popup

  /** The two styles of toast. */
  datatype Kind = Success | Failure

  datatype Toast = Toast(text: string, kind: Kind)

  predicate IsDigit(c: char)
  {
    '0' <= c <= '9'
  }

  function DigitChar(d: nat): (c: char)
    requires d < 10
    ensures IsDigit(c) && DigitValue(c) == d
  {
    ('0' as int + d) as char
  }

  function DigitValue(c: char): nat
    requires IsDigit(c)
  {
    c as int - '0' as int
  }

  /** The decimal rendering of n, as a template literal writes a non-negative integer. */
  function Decimal(n: nat): (s: string)
    ensures |s| >= 1 && forall i :: 0 <= i < |s| ==> IsDigit(s[i])
    // no leading zero, except for zero itself
    ensures s[0] == '0' ==> n == 0 && s == "0"
    decreases n
  {
    if n < 10 then [DigitChar(n)] else Decimal(n / 10) + [DigitChar(n % 10)]
  }

  /** Reads a string of decimal digits back as a number. */
  function ParseDecimal(s: string): nat
    requires forall i :: 0 <= i < |s| ==> IsDigit(s[i])
    decreases |s|
  {
    if s == [] then 0
    else ParseDecimal(s[..|s| - 1]) * 10 + DigitValue(s[|s| - 1])
  }

  /** Decimal loses nothing: reading the digits back gives the number. */
  lemma {:induction false} DecimalRoundTrip(n: nat)
    ensures ParseDecimal(Decimal(n)) == n
    decreases n
  {
    if n >= 10 {
      DecimalRoundTrip(n / 10);
      var s := Decimal(n);
      assert s[..|s| - 1] == Decimal(n / 10);
    } else {
      assert Decimal(n)[..0] == [];
    }
  }

  /** Different counts are written differently. */
  lemma DecimalInjective(m: nat, n: nat)
    requires Decimal(m) == Decimal(n)
    ensures m == n
  {
    DecimalRoundTrip(m);
    DecimalRoundTrip(n);
  }

  /** Array.prototype.join: the items with `sep` between neighbours. */
  function Join(items: seq<string>, sep: string): string
    decreases |items|
  {
    if items == [] then ""
    else if |items| == 1 then items[0]
    else Join(items[..|items| - 1], sep) + sep + items[|items| - 1]
  }

  function TotalLength(items: seq<string>): nat
    decreases |items|
  {
    if items == [] then 0 else TotalLength(items[..|items| - 1]) + |items[|items| - 1]|
  }

  /** Joining two non-empty lists back to back puts one separator between their joins. */
  lemma {:induction false} JoinConcat(a: seq<string>, b: seq<string>, sep: string)
    requires a != [] && b != []
    ensures Join(a + b, sep) == Join(a, sep) + sep + Join(b, sep)
    decreases |b|
  {
    var ab := a + b;
    var n := |b| - 1;
    assert ab[..|ab| - 1] == a + b[..n];
    assert ab[|ab| - 1] == b[n];
    if n == 0 {
      assert a + b[..n] == a;
    } else {
      JoinConcat(a, b[..n], sep);
      assert Join(b, sep) == Join(b[..n], sep) + sep + b[n];
    }
  }

  /** The length of a join: every item's characters and one separator between each pair of neighbours. */
  lemma {:induction false} JoinLength(items: seq<string>, sep: string)
    requires items != []
    ensures |Join(items, sep)| == TotalLength(items) + (|items| - 1) * |sep|
    decreases |items|
  {
    if |items| > 1 {
      var n := |items| - 1;
      JoinLength(items[..n], sep);
      assert items[..n][..n - 1] == items[..n - 1];
      assert TotalLength(items[..n]) == TotalLength(items[..n - 1]) + |items[n - 1]|;
    } else {
      assert items[..0] == [];
    }
  }

  /** The first sentence of a restore report. */
  function RestoreHeadline(restored: nat, total: nat): string
  {
    "Restored " + Decimal(restored) + " of " + Decimal(total) + " pinned tab(s)"
  }

  const MissingPreamble: string := ". Some containers were missing: "

  /**
   * The text of a completed restore: the headline, followed by the missing names only when
   * there are any.
   */
  function RestoreMessage(restored: nat, total: nat, missing: seq<string>): (text: string)
    ensures RestoreHeadline(restored, total) <= text
    ensures text == RestoreHeadline(restored, total) <==> missing == []
    ensures missing != [] ==>
              text[|RestoreHeadline(restored, total)|..] == MissingPreamble + Join(missing, ", ")
  {
    var headline := RestoreHeadline(restored, total);
    if |missing| > 0 then
      var text := headline + MissingPreamble + Join(missing, ", ");
      assert text[..|headline|] == headline;
      assert text[|headline|..] == MissingPreamble + Join(missing, ", ");
      text
    else headline
  }

  /** The toast a restore ends with; a success exactly when every saved tab was restored. */
  function RestoreToast(outcome: RestoreOutcome): (t: Toast)
    ensures t.kind == Success <==> outcome.Restored? && outcome.restoredCount == outcome.total
    ensures outcome.Restored? ==>
              t.text == RestoreMessage(outcome.restoredCount, outcome.total, outcome.missingContainers)
    ensures outcome.NothingToRestore? ==> t == Toast("No saved tabs found to restore", Failure)
    ensures outcome.RestoreFailed? ==> t == Toast("Failed to restore tabs", Failure)
  {
    match outcome
    case NothingToRestore => Toast("No saved tabs found to restore", Failure)
    case RestoreFailed => Toast("Failed to restore tabs", Failure)
    case Restored(restored, total, missing) =>
      Toast(RestoreMessage(restored, total, missing), if restored == total then Success else Failure)
  }

  /** The toast a save ends with; a success exactly when the collection was written. */
  function SaveToast(outcome: SaveOutcome): (t: Toast)
    ensures t.kind == Success <==> outcome.Saved?
    ensures outcome.Saved? ==>
              t.text == "Saved " + Decimal(outcome.count) + " pinned tab(s) with container information"
    ensures outcome.NoPinnedTabs? ==> t.text == "No pinned tabs found to save"
    ensures outcome.SaveFailed? ==> t.text == "Failed to save tabs"
  {
    match outcome
    case NoPinnedTabs => Toast("No pinned tabs found to save", Failure)
    case Saved(count) => Toast("Saved " + Decimal(count) + " pinned tab(s) with container information", Success)
    case SaveFailed => Toast("Failed to save tabs", Failure)
  }

  /**
   * A restore that got past removal reports success exactly when every saved tab's first
   * or second tabs.create succeeded, and names missing containers exactly when some saved
   * reference no longer resolved.
   */
  lemma RestoreReportsSuccess(tabs: seq<SavedTab>, env: Env)
    ensures var s := Reconcile(tabs, env);
            var t := RestoreToast(Restored(|s.created|, |tabs|, s.missing));
            (t.kind == Success <==> forall k :: 0 <= k < |tabs| ==> env.primaryOk(k) || env.fallbackOk(k))
            && (t.text == RestoreHeadline(|s.created|, |tabs|)
                <==> forall k :: 0 <= k < |tabs| ==> Resolves(tabs[k].cookieStoreId, env.lookup))
  {
    RestoredCount(tabs, env);
    MissingInTabOrder(tabs, env);
    MissingNamesEmpty(tabs, env.lookup);
  }
}
