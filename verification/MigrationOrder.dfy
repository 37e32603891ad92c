/** Up and Down visit files sorted by name, and the two suffixes must not disturb the order. */
module MigrationOrder {
  import opened Migration

  /** Byte-wise string order, as sort.Strings uses it. */
  predicate Less(a: string, b: string) {
    b != [] && (a == [] || a[0] < b[0] || (a[0] == b[0] && Less(a[1..], b[1..])))
  }

  lemma {:induction false} LessTransitive(a: string, b: string, c: string)
    requires Less(a, b) && Less(b, c)
    ensures Less(a, c)
  {
    if a != [] && a[0] == b[0] && b[0] == c[0] { LessTransitive(a[1..], b[1..], c[1..]); }
  }

  lemma {:induction false} LessIrreflexive(a: string)
    ensures !Less(a, a)
  {
    if a != [] { LessIrreflexive(a[1..]); }
  }

  /** Neither string starts the other. */
  predicate Apart(a: string, b: string) { !(a <= b) && !(b <= a) }

  /** Between strings of which neither starts the other, no suffixes can change the order. */
  lemma {:induction false} SuffixesIrrelevant(a: string, b: string, s: string, t: string)
    requires Apart(a, b)
    ensures Less(a + s, b + t) <==> Less(a, b)
  {
    assert a != [] && b != [];
    assert (a + s)[1..] == a[1..] + s && (b + t)[1..] == b[1..] + t;
    if a[0] == b[0] {
      assert a == [a[0]] + a[1..] && b == [b[0]] + b[1..];
      SuffixesIrrelevant(a[1..], b[1..], s, t);
    }
  }

  ghost predicate Sorted(xs: seq<string>) {
    forall i, j | 0 <= i < j < |xs| :: Less(xs[i], xs[j])
  }

  /** A set has only one sorted listing. */
  lemma {:induction false} SortedUnique(xs: seq<string>, ys: seq<string>)
    requires Sorted(xs) && Sorted(ys) && forall x :: x in xs <==> x in ys
    ensures xs == ys
    decreases |xs|
  {
    assert ys != [] ==> ys[0] in ys;
    if xs != [] {
      assert xs[0] in ys && ys != [];
      assert ys[0] in xs;
      FirstIsLeast(xs, ys[0]);
      FirstIsLeast(ys, xs[0]);
      if xs[0] != ys[0] {
        LessTransitive(xs[0], ys[0], xs[0]);
        LessIrreflexive(xs[0]);
      }
      RestExcludesFirst(xs);
      RestExcludesFirst(ys);
      forall x ensures x in xs[1..] <==> x in ys[1..] {
        assert x in xs <==> x == xs[0] || x in xs[1..];
        assert x in ys <==> x == ys[0] || x in ys[1..];
      }
      SortedUnique(xs[1..], ys[1..]);
      assert xs == [xs[0]] + xs[1..] && ys == [ys[0]] + ys[1..];
    }
  }

  lemma FirstIsLeast(xs: seq<string>, x: string)
    requires Sorted(xs) && x in xs
    ensures x == xs[0] || Less(xs[0], x)
  {
  }

  lemma RestExcludesFirst(xs: seq<string>)
    requires Sorted(xs) && xs != []
    ensures xs[0] !in xs[1..] && Sorted(xs[1..])
  {
    LessIrreflexive(xs[0]);
  }

  function WithSuffix(stems: seq<string>, suffix: string): (r: seq<string>)
    ensures |r| == |stems| && forall i | 0 <= i < |stems| :: r[i] == stems[i] + suffix
  {
    seq(|stems|, i requires 0 <= i < |stems| => stems[i] + suffix)
  }

  lemma {:induction false} LessTotal(a: string, b: string)
    requires a != b
    ensures Less(a, b) || Less(b, a)
  {
    if a != [] && b != [] && a[0] == b[0] {
      assert a == [a[0]] + a[1..] && b == [b[0]] + b[1..];
      LessTotal(a[1..], b[1..]);
    }
  }

  lemma LessAsymmetric(a: string, b: string)
    requires Less(a, b)
    ensures !Less(b, a)
  {
    if Less(b, a) {
      LessTransitive(a, b, a);
      LessIrreflexive(a);
    }
  }

  /** A common start does not matter to the order. */
  lemma {:induction false} LessBehind(a: string, s: string, t: string)
    ensures Less(a + s, a + t) <==> Less(s, t)
  {
    if a == [] {
      assert a + s == s && a + t == t;
    } else {
      assert (a + s)[1..] == a[1..] + s && (a + t)[1..] == a[1..] + t;
      LessBehind(a[1..], s, t);
    }
  }

  /** What follows one stem to make another sorts the same against either suffix. */
  predicate Agrees(a: string, b: string) {
    a <= b ==> var x := b[|a|..]; Less(UP, x + UP) == Less(DOWN, x + DOWN)
  }

  ghost predicate SuffixesAgree(stems: seq<string>) {
    forall a, b | a in stems && b in stems :: Agrees(a, b)
  }

  /** For a stem and a continuation of it, that is exactly when the two suffixes give them the same order. */
  lemma {:induction false} AgreesIff(a: string, b: string)
    requires a <= b
    ensures Agrees(a, b) <==> (Less(a + UP, b + UP) <==> Less(a + DOWN, b + DOWN))
  {
    var x := b[|a|..];
    assert b + UP == a + (x + UP) && b + DOWN == a + (x + DOWN);
    LessBehind(a, UP, x + UP);
    LessBehind(a, DOWN, x + DOWN);
  }

  /** Only a continuation that begins with a dot can disagree: "3_users" and "3_users_roles" never do. */
  lemma DotlessAgree(a: string, b: string)
    requires !(a + "." <= b)
    ensures Agrees(a, b)
  {
    if a <= b {
      var x := b[|a|..];
      if x != [] {
        assert b == a + x && x[0] == b[|a|];
      } else {
        assert x + UP == UP && x + DOWN == DOWN;
        LessIrreflexive(UP);
        LessIrreflexive(DOWN);
      }
    }
  }

  lemma {:induction false} PairOrder(a: string, b: string)
    requires Agrees(a, b) && Agrees(b, a)
    ensures Less(a + UP, b + UP) <==> Less(a + DOWN, b + DOWN)
  {
    if a <= b {
      AgreesIff(a, b);
    } else if b <= a {
      AgreesIff(b, a);
      SuffixKeepsDistinct(a, b);
      LessTotal(a + UP, b + UP);
      LessTotal(a + DOWN, b + DOWN);
      if Less(a + UP, b + UP) { LessAsymmetric(a + UP, b + UP); }
      if Less(a + DOWN, b + DOWN) { LessAsymmetric(a + DOWN, b + DOWN); }
    } else {
      SuffixesIrrelevant(a, b, UP, UP);
      SuffixesIrrelevant(a, b, DOWN, DOWN);
    }
  }

  lemma SuffixKeepsDistinct(a: string, b: string)
    requires a != b
    ensures a + UP != b + UP && a + DOWN != b + DOWN
  {
    assert (a + UP)[..|a|] == a && (b + UP)[..|b|] == b;
    assert (a + DOWN)[..|a|] == a && (b + DOWN)[..|b|] == b;
    if |a| == |b| { assert a + UP != b + UP; }
  }

  /** The i-th script that Down runs belongs to the stem of Up's i-th file from the end. */
  ghost predicate MirrorsAt(db: Database, stems: seq<string>, ups: seq<string>, downs: seq<string>, i: nat)
    requires i < |stems| == |ups|
  {
    var ran := DownAll(db, Reversed(downs)).executed;
    var stem := stems[|stems| - 1 - i];
    && ups[|ups| - 1 - i] == stem + UP
    && |db.executed| + i < |ran| && ran[|db.executed|..][i] == DownScript(stem + DOWN)
  }

  lemma MirrorPlace(db: Database, stems: seq<string>, ups: seq<string>, downs: seq<string>, i: nat)
    requires i < |stems| && ups == WithSuffix(stems, UP) && downs == WithSuffix(stems, DOWN)
    ensures MirrorsAt(db, stems, ups, downs, i)
  {
    hide DownAll;
    DownRuns(db, Reversed(downs));
  }

  /** When files pair by stem, the sorted down files are, position by position, the counterparts of the sorted up
      files, so that Down visits exactly the reverse of Up, if and only if the suffixes agree on every stem that
      starts another. */
  lemma DownReversesUpIff(stems: seq<string>, ups: seq<string>, downs: seq<string>)
    requires ups == WithSuffix(stems, UP) && Sorted(ups)
    requires Sorted(downs) && forall f :: f in downs <==> f in WithSuffix(stems, DOWN)
    ensures downs == WithSuffix(stems, DOWN) <==> SuffixesAgree(stems)
    ensures SuffixesAgree(stems) ==>
              forall db: Database, i: nat | i < |stems| :: MirrorsAt(db, stems, ups, downs, i)
  {
    if SuffixesAgree(stems) {
      forall i, j | 0 <= i < j < |stems| ensures Less(stems[i] + DOWN, stems[j] + DOWN) {
        assert Less(ups[i], ups[j]);
        PairOrder(stems[i], stems[j]);
      }
      SortedUnique(downs, WithSuffix(stems, DOWN));
      forall db: Database, i: nat | i < |stems| ensures MirrorsAt(db, stems, ups, downs, i) {
        MirrorPlace(db, stems, ups, downs, i);
      }
    }
    if downs == WithSuffix(stems, DOWN) {
      forall a, b | a in stems && b in stems ensures Agrees(a, b) {
        var i :| 0 <= i < |stems| && stems[i] == a;
        var j :| 0 <= j < |stems| && stems[j] == b;
        if a <= b {
          AgreesIff(a, b);
          if i < j {
            assert Less(ups[i], ups[j]) && Less(downs[i], downs[j]);
          } else if i > j {
            assert Less(ups[j], ups[i]) && Less(downs[j], downs[i]);
            LessAsymmetric(ups[j], ups[i]);
            LessAsymmetric(downs[j], downs[i]);
          } else {
            LessIrreflexive(ups[i]);
            LessIrreflexive(downs[i]);
          }
        }
      }
    }
  }

  /** Whatever the order, when files pair by stem a complete Down forgets every file and the next Up runs them all
      again, if and only if no stem is empty: ".down.sql" derives no up name. */
  lemma PairedRoundTripIff(db: Database, stems: seq<string>, ups: seq<string>, downs: seq<string>)
    requires ups == WithSuffix(stems, UP) && Sorted(ups)
    requires Sorted(downs) && forall f :: f in downs <==> f in WithSuffix(stems, DOWN)
    ensures var down := DownAll(UpAll(db, ups), Reversed(downs));
            (UpAll(down, ups).executed == down.executed + UpScripts(ups)) <==> "" !in stems
    ensures "" !in stems ==> forall f | f in ups :: f !in DownAll(UpAll(db, ups), Reversed(downs)).recorded
  {
    forall i, j | 0 <= i < j < |ups| ensures ups[i] != ups[j] { LessIrreflexive(ups[i]); }
    ReversedSame(downs);
    DownForgets(UpAll(db, ups), Reversed(downs));
    DownThenUpReappliesIff(db, ups, Reversed(downs));
    if "" !in stems {
      forall f | f in ups ensures exists d :: d in Reversed(downs) && DeriveUpName(d) == f {
        var i :| 0 <= i < |stems| && ups[i] == f;
        DeriveStem(stems[i]);
        assert WithSuffix(stems, DOWN)[i] in Reversed(downs);
      }
    } else {
      var k :| 0 <= k < |stems| && stems[k] == "";
      assert ups[k] == UP && ups[k] in ups;
      forall d | d in Reversed(downs) ensures DeriveUpName(d) != UP {
        var i :| 0 <= i < |stems| && WithSuffix(stems, DOWN)[i] == d;
        if stems[i] != "" { DeriveStem(stems[i]); } else { assert d == DOWN; }
      }
    }
  }

  lemma ReversedSame(s: seq<string>)
    ensures forall x :: x in Reversed(s) <==> x in s
  {
    forall x | x in s ensures x in Reversed(s) {
      var i :| 0 <= i < |s| && s[i] == x;
      assert Reversed(s)[|s| - 1 - i] == x;
    }
  }

  /** A pair of stems on which the suffixes do not agree: the two orders differ. */
  lemma PrefixStemsCanDisagree()
    ensures Less("1.e" + UP, "1" + UP) && Less("1" + DOWN, "1.e" + DOWN)
    ensures !SuffixesAgree(["1.e", "1"])
  {
    assert ("1.e" + UP)[1..] == ".e" + UP && (".e" + UP)[1..] == "e" + UP;
    assert ("1" + UP)[1..] == UP && UP[1..] == "up.sql";
    assert ("1.e" + DOWN)[1..] == ".e" + DOWN && (".e" + DOWN)[1..] == "e" + DOWN;
    assert ("1" + DOWN)[1..] == DOWN && DOWN[1..] == "down.sql";
    assert Less("e" + UP, "up.sql") && Less("down.sql", "e" + DOWN);
    assert Less(".e" + UP, UP) && Less(DOWN, ".e" + DOWN);
    LessAsymmetric("1.e" + UP, "1" + UP);
    AgreesIff("1", "1.e");
    assert "1" in ["1.e", "1"] && "1.e" in ["1.e", "1"];
  }

  const SHIPPED_UPS := [
    "1_create_tables_users.up.sql", "2_create_extensions_uuid.up.sql", "3_partial_unique_users.up.sql",
    "4_normalize_email_username.up.sql", "5_users_password_changed_at.up.sql"]

  const SHIPPED_DOWNS := [
    "1_drop_tables_users.down.sql", "2_drop_extensions_uuid.down.sql", "3_partial_unique_users.down.sql",
    "4_normalize_email_username.down.sql", "5_users_password_changed_at.down.sql"]

  lemma DeriveKeepsStart(d: string, k: nat)
    requires k + |DOWN| < |d|
    ensures k < |DeriveUpName(d)| && DeriveUpName(d)[k] == d[k]
  {
  }

  lemma ShippedDownStart(i: nat)
    requires i < 5
    ensures var d := SHIPPED_DOWNS[i]; |d| > 12 && (if i < 2 then d[2] == 'd' else d[0] > '2')
  {
    match i
    case 0 => assert SHIPPED_DOWNS[0] == "1_drop_tables_users.down.sql";
    case 1 => assert SHIPPED_DOWNS[1] == "2_drop_extensions_uuid.down.sql";
    case 2 => assert SHIPPED_DOWNS[2] == "3_partial_unique_users.down.sql";
    case 3 => assert SHIPPED_DOWNS[3] == "4_normalize_email_username.down.sql";
    case _ => assert SHIPPED_DOWNS[4] == "5_users_password_changed_at.down.sql";
  }

  lemma ShippedUnpaired(i: nat)
    requires i < 5
    ensures DeriveUpName(SHIPPED_DOWNS[i]) != SHIPPED_UPS[0] && DeriveUpName(SHIPPED_DOWNS[i]) != SHIPPED_UPS[1]
  {
    hide DeriveUpName;
    var d, first, second := SHIPPED_DOWNS[i], SHIPPED_UPS[0], SHIPPED_UPS[1];
    assert first == "1_create_tables_users.up.sql" && second == "2_create_extensions_uuid.up.sql";
    ShippedDownStart(i);
    DeriveKeepsStart(d, 0);
    DeriveKeepsStart(d, 2);
  }

  lemma ShippedDistinct()
    ensures Distinct(SHIPPED_UPS)
  {
    assert forall i | 0 <= i < 5 :: SHIPPED_UPS[i][0] as int == '1' as int + i;
  }

  /** The first two shipped migrations have no down file of their own stem: after Up and Down they stay recorded,
      and the next Up neither creates the users table nor installs the extension again. */
  lemma ShippedMigrationsStayRecorded(db: Database)
    ensures var down := DownAll(UpAll(db, SHIPPED_UPS), Reversed(SHIPPED_DOWNS));
            && SHIPPED_UPS[0] in down.recorded && SHIPPED_UPS[1] in down.recorded
            && UpAll(down, SHIPPED_UPS).executed != down.executed + UpScripts(SHIPPED_UPS)
  {
    hide UpAll, DownAll, DeriveUpName;
    var downs := Reversed(SHIPPED_DOWNS);
    ShippedDistinct();
    forall d | d in downs ensures DeriveUpName(d) != SHIPPED_UPS[0] && DeriveUpName(d) != SHIPPED_UPS[1] {
      var i :| 0 <= i < 5 && downs[i] == d;
      ShippedUnpaired(4 - i);
    }
    UpRecords(db, SHIPPED_UPS);
    DownForgets(UpAll(db, SHIPPED_UPS), downs);
    DownThenUpReappliesIff(db, SHIPPED_UPS, downs);
  }
}
