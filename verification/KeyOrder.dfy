// Fixed-width numerals and the order of strings.  Strings are compared by their characters' codes from the front, a
// proper prefix being smaller, as JavaScript's < and the listing of an object store do.  Numerals that are padded
// with zeros to one width are ordered like their numbers, which is what lets a key of text stand for a time.  Both
// the keys of the job queue and the sorted classes of an element rely on this order.
module KeyOrder {
  import opened Digits

  function Power10(n: nat): nat {
    if n == 0 then 1 else 10 * Power10(n - 1)
  }

  // The last width digits of n.
  function Pad(n: nat, width: nat): (s: string)
    ensures |s| == width && forall c <- s :: IsDigit(c)
  {
    if width == 0 then "" else Pad(n / 10, width - 1) + [DigitChar(n % 10)]
  }

  lemma {:induction false} PadParses(n: nat, width: nat)
    requires n < Power10(width)
    ensures ParseDigits(Pad(n, width)) == n
  {
    if width > 0 {
      PadParses(n / 10, width - 1);
      assert Pad(n, width)[..width - 1] == Pad(n / 10, width - 1);
    }
  }

  // Lexicographic order by character, in which S3 lists keys.
  predicate Less(a: string, b: string) {
    b != "" && (a == "" || a[0] < b[0] || (a[0] == b[0] && Less(a[1..], b[1..])))
  }

  lemma {:induction false} LessIrreflexive(a: string)
    ensures !Less(a, a)
  {
    if a != "" {
      LessIrreflexive(a[1..]);
    }
  }

  lemma {:induction false} LessAsymmetric(a: string, b: string)
    requires Less(a, b)
    ensures !Less(b, a)
  {
    if a != "" && a[0] == b[0] {
      LessAsymmetric(a[1..], b[1..]);
    }
  }

  lemma {:induction false} LessExtends(a: string, b: string, x: string, y: string)
    requires |a| == |b| && Less(a, b)
    ensures Less(a + x, b + y)
  {
    if a[0] == b[0] {
      assert (a + x)[1..] == a[1..] + x && (b + y)[1..] == b[1..] + y;
      LessExtends(a[1..], b[1..], x, y);
    }
  }

  lemma {:induction false} LessAfterPrefix(a: string, x: string, y: string)
    ensures Less(a + x, a + y) <==> Less(x, y)
  {
    if a == "" {
      assert a + x == x && a + y == y;
    } else {
      assert (a + x)[1..] == a[1..] + x && (a + y)[1..] == a[1..] + y;
      LessAfterPrefix(a[1..], x, y);
    }
  }

  lemma {:induction false} PadLess(m: nat, n: nat, width: nat)
    requires m < n < Power10(width)
    ensures Less(Pad(m, width), Pad(n, width))
  {
    if m / 10 < n / 10 {
      PadLess(m / 10, n / 10, width - 1);
      LessExtends(Pad(m / 10, width - 1), Pad(n / 10, width - 1), [DigitChar(m % 10)], [DigitChar(n % 10)]);
    } else {
      assert m % 10 < n % 10;
      LessAfterPrefix(Pad(m / 10, width - 1), [DigitChar(m % 10)], [DigitChar(n % 10)]);
    }
  }

  // Two fields of fixed width, one after the other.
  lemma PairLess(m: nat, n: nat, width: nat, x: string, y: string)
    requires m < Power10(width) && n < Power10(width)
    requires m < n || (m == n && Less(x, y))
    ensures Less(Pad(m, width) + x, Pad(n, width) + y)
  {
    if m < n {
      PadLess(m, n, width);
      LessExtends(Pad(m, width), Pad(n, width), x, y);
    } else {
      LessAfterPrefix(Pad(m, width), x, y);
    }
  }
}
