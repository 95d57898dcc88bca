/**
 * The records the generator builds: routers, the interface bindings of a
 * router, the connection entries, and the hostnames it invents.
 */
module Records {
  import opened Text

  /** Core ("P") or edge ("PE") router. */
  datatype RouterType = P | PE {
    function Name(): string {
      match this
      case P => "P"
      case PE => "PE"
    }
  }

  /** A router entry: type, hostname, loopback address (as text) and its index in the router list. */
  datatype Router = Router(kind: RouterType, hostname: string, loopback: string, index: nat)

  /** One interface of a router: its name, its address and the mask text of the run. */
  datatype Binding = Binding(name: string, address: string, mask: string)

  /** A connection entry: the two router indices and the interface name at each end. */
  datatype Connection = Connection(sourceIdx: nat, targetIdx: nat, sourceIface: string, targetIface: string)

  /**
   * The outcome of the random draws of one generate_hostname call: two
   * characters from string.ascii_uppercase and two from string.digits.
   */
  datatype Draw = Draw(letters: string, digits: string) {
    predicate Valid() {
      && |letters| == 2 && (forall i :: 0 <= i < 2 ==> 'A' <= letters[i] <= 'Z')
      && |digits| == 2 && (forall i :: 0 <= i < 2 ==> IsDigit(digits[i]))
    }
  }

  /**
   * generate_hostname: the type name, a dash, then the drawn letters and
   * digits. The type name holds no dash, so the first dash ends it.
   */
  function Hostname(kind: RouterType, draw: Draw): (h: string)
    ensures var n := |kind.Name()|;
      && |h| == n + 1 + |draw.letters| + |draw.digits|
      && h[..n] == kind.Name() && '-' !in h[..n] && h[n] == '-'
      && h[n + 1..] == draw.letters + draw.digits
  {
    kind.Name() + "-" + draw.letters + draw.digits
  }

  /**
   * A hostname starts with its router type and a dash and ends with two
   * upper-case letters and two digits; it holds no newline.
   */
  lemma HostnameShape(kind: RouterType, draw: Draw)
    requires draw.Valid()
    ensures var h, n := Hostname(kind, draw), |kind.Name()|;
      && |h| == n + 5
      && h[..n + 1] == kind.Name() + "-"
      && 'A' <= h[n + 1] <= 'Z' && 'A' <= h[n + 2] <= 'Z'
      && IsDigit(h[n + 3]) && IsDigit(h[n + 4])
      && NoNewline(h)
  {
    var h, n := Hostname(kind, draw), |kind.Name()|;
    assert h[n + 1] == draw.letters[0] && h[n + 2] == draw.letters[1];
    assert h[n + 3] == draw.digits[0] && h[n + 4] == draw.digits[1];
  }

  /**
   * Two hostnames coincide exactly when the router types and the draws do:
   * a core and an edge router never share a name, but two routers of one
   * type with the same draw do (the source does not prevent that).
   */
  lemma HostnameCollision(k1: RouterType, d1: Draw, k2: RouterType, d2: Draw)
    requires d1.Valid() && d2.Valid()
    ensures Hostname(k1, d1) == Hostname(k2, d2) <==> k1 == k2 && d1 == d2
  {
    var h1, h2 := Hostname(k1, d1), Hostname(k2, d2);
    if h1 == h2 {
      // "P-" has a dash where "PE-" has an 'E'.
      assert h1[1] == h2[1];
      var n := |k1.Name()|;
      assert d1.letters == h1[n + 1..n + 3] == h2[n + 1..n + 3] == d2.letters;
      assert d1.digits == h1[n + 3..] == h2[n + 3..] == d2.digits;
    }
  }
}
