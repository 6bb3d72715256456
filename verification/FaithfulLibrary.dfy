/** The one assumption made of the script library can be met: a library that takes
    every condition, prints each as one expression and reads it back. */
module FaithfulLibrary {
  import opened Wrappers
  import opened SpendPolicy
  import opened Descriptor
  import opened LeafCompiler

  function Unary(n: nat): string {
    if n == 0 then "z" else "s" + Unary(n - 1)
  }

  function KeyText(keys: seq<PublicKey>): string {
    if keys == [] then "z" else "s" + Unary(keys[0].id) + KeyText(keys[1..])
  }

  function Text(p: Policy): (s: string)
    ensures s != []
  {
    match p
    case Thresh(k, keys) => "t" + Unary(k) + KeyText(keys)
    case And(l, r) => "a" + Text(l) + Text(r)
    case Or(l, r) => "o" + Text(l) + Text(r)
    case After(n) => "h" + Unary(n)
    case Older(n) => "g" + Unary(n)
  }

  predicate Plain(s: string) { forall c | c in s :: c in "sztaohg" }

  lemma {:induction false} UnaryPlain(n: nat)
    ensures Plain(Unary(n))
  {
    if n > 0 { UnaryPlain(n - 1); }
  }

  lemma {:induction false} KeyTextPlain(keys: seq<PublicKey>)
    ensures Plain(KeyText(keys))
  {
    if keys != [] { UnaryPlain(keys[0].id); KeyTextPlain(keys[1..]); }
  }

  lemma {:induction false} TextPlain(p: Policy)
    ensures Plain(Text(p))
  {
    match p
    case Thresh(k, keys) => UnaryPlain(k); KeyTextPlain(keys);
    case And(l, r) => TextPlain(l); TextPlain(r);
    case Or(l, r) => TextPlain(l); TextPlain(r);
    case After(n) => UnaryPlain(n);
    case Older(n) => UnaryPlain(n);
  }

  lemma {:induction false} PlainIsBalanced(s: string)
    requires Plain(s)
    ensures Balanced(s, 0)
  {
    if s != [] {
      assert s[0] in s;
      PlainIsBalanced(s[1..]);
    }
  }

  lemma AfterHead(head: char, a: string, x: string)
    ensures ([head] + a) + x == [head] + (a + x) && (([head] + a) + x)[0] == head && (([head] + a) + x)[1..] == a + x
  {
  }

  lemma AfterHeads(head: char, a: string, b: string, x: string)
    ensures ([head] + a + b) + x == [head] + (a + (b + x))
    ensures (([head] + a + b) + x)[0] == head && (([head] + a + b) + x)[1..] == a + (b + x)
  {
  }

  lemma {:induction false} UnaryPrefix(m: nat, n: nat, x: string, y: string)
    requires Unary(m) + x == Unary(n) + y
    ensures m == n && x == y
  {
    if m == 0 || n == 0 {
      assert (Unary(m) + x)[0] == (Unary(n) + y)[0];
      assert ("z" + x)[1..] == x && ("z" + y)[1..] == y;
    } else {
      AfterHead('s', Unary(m - 1), x);
      AfterHead('s', Unary(n - 1), y);
      UnaryPrefix(m - 1, n - 1, x, y);
    }
  }

  lemma {:induction false} KeyTextPrefix(a: seq<PublicKey>, b: seq<PublicKey>, x: string, y: string)
    requires KeyText(a) + x == KeyText(b) + y
    ensures a == b && x == y
    decreases |a|
  {
    assert (KeyText(a) + x)[0] == (KeyText(b) + y)[0];
    if a == [] {
      assert ("z" + x)[1..] == x && ("z" + y)[1..] == y;
    } else {
      AfterHeads('s', Unary(a[0].id), KeyText(a[1..]), x);
      AfterHeads('s', Unary(b[0].id), KeyText(b[1..]), y);
      UnaryPrefix(a[0].id, b[0].id, KeyText(a[1..]) + x, KeyText(b[1..]) + y);
      KeyTextPrefix(a[1..], b[1..], x, y);
      assert a == [a[0]] + a[1..] && b == [b[0]] + b[1..];
    }
  }

  /** The text of a condition tells it apart from every other, whatever follows. */
  lemma {:induction false} TextPrefix(p: Policy, q: Policy, x: string, y: string)
    requires Text(p) + x == Text(q) + y
    ensures p == q && x == y
    decreases p
  {
    HeadOf(p, x);
    HeadOf(q, y);
    match p
    case Thresh(k, keys) =>
      AfterHeads('t', Unary(k), KeyText(keys), x);
      AfterHeads('t', Unary(q.quorum), KeyText(q.keys), y);
      UnaryPrefix(k, q.quorum, KeyText(keys) + x, KeyText(q.keys) + y);
      KeyTextPrefix(keys, q.keys, x, y);
    case And(l, r) =>
      AfterHeads('a', Text(l), Text(r), x);
      AfterHeads('a', Text(q.left), Text(q.right), y);
      TextPrefix(l, q.left, Text(r) + x, Text(q.right) + y);
      TextPrefix(r, q.right, x, y);
    case Or(l, r) =>
      AfterHeads('o', Text(l), Text(r), x);
      AfterHeads('o', Text(q.left), Text(q.right), y);
      TextPrefix(l, q.left, Text(r) + x, Text(q.right) + y);
      TextPrefix(r, q.right, x, y);
    case After(n) =>
      AfterHead('h', Unary(n), x);
      AfterHead('h', Unary(q.blocks), y);
      UnaryPrefix(n, q.blocks, x, y);
    case Older(n) =>
      AfterHead('g', Unary(n), x);
      AfterHead('g', Unary(q.blocks), y);
      UnaryPrefix(n, q.blocks, x, y);
  }

  lemma HeadOf(p: Policy, x: string)
    ensures (Text(p) + x)[0] ==
            match p
            case Thresh(_, _) => 't'
            case And(_, _) => 'a'
            case Or(_, _) => 'o'
            case After(_) => 'h'
            case Older(_) => 'g'
  {
  }

  ghost function Read(s: string): Option<Policy> {
    if p :| Text(p) == s then Some(p) else None
  }

  /** Some library is faithful while refusing nothing. */
  lemma FaithfulLibraryExists() returns (lib: Library)
    ensures Faithful(lib) && forall p :: lib.accepts(p)
  {
    lib := Library(p => true, p => Text(p), s => Read(s));
    forall p | lib.accepts(p) ensures LeafText(lib.text(p)) && lib.read(lib.text(p)) == Some(p) {
      TextPlain(p);
      PlainIsBalanced(Text(p));
      var q := Read(Text(p)).value;
      TextPrefix(p, q, "", "");
    }
  }
}
