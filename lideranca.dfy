/**
 * The `Lideranca` page: leaders grouped by `leader_type` into three tabs,
 * and the contact links on each leader's card.
 */
module LeadershipPage {
  import opened Wrappers
  import opened Seqs
  import opened JsString
  import opened JsValue

  datatype Leader = Leader(
    name: string, role: string, leaderType: Option<string>,
    whatsapp: Option<string>, phone: Option<string>, email: Option<string>)

  function OfType(t: string): Leader -> bool {
    (l: Leader) => l.leaderType == Some(t)
  }

  /** `diretoria`. */
  function Board(leaders: seq<Leader>): seq<Leader> {
    Filter(leaders, OfType("diretoria"))
  }

  /** `pastores`. */
  function Pastors(leaders: seq<Leader>): seq<Leader> {
    Filter(leaders, OfType("pastor"))
  }

  /** `lideresDepartamento`. */
  function DepartmentLeaders(leaders: seq<Leader>): seq<Leader> {
    Filter(leaders, OfType("lider_departamento"))
  }

  /** Each group holds exactly the leaders of its type, in their input order. */
  lemma GroupsByType(leaders: seq<Leader>)
    ensures forall l :: l in Board(leaders) <==> l in leaders && l.leaderType == Some("diretoria")
    ensures forall l :: l in Pastors(leaders) <==> l in leaders && l.leaderType == Some("pastor")
    ensures forall l :: l in DepartmentLeaders(leaders) <==> l in leaders && l.leaderType == Some("lider_departamento")
    ensures Subseq(Board(leaders), leaders) && Subseq(Pastors(leaders), leaders)
    ensures Subseq(DepartmentLeaders(leaders), leaders)
  {
    FilterIsSubseq(leaders, OfType("diretoria"));
    FilterIsSubseq(leaders, OfType("pastor"));
    FilterIsSubseq(leaders, OfType("lider_departamento"));
  }

  /**
   * No leader is in two groups, and together the groups hold each leader at
   * most as often as the input does.
   */
  lemma GroupsDisjoint(leaders: seq<Leader>)
    ensures forall l :: !(l in Board(leaders) && l in Pastors(leaders))
    ensures forall l :: !(l in Board(leaders) && l in DepartmentLeaders(leaders))
    ensures forall l :: !(l in Pastors(leaders) && l in DepartmentLeaders(leaders))
    ensures multiset(Board(leaders)) + multiset(Pastors(leaders)) + multiset(DepartmentLeaders(leaders))
      <= multiset(leaders)
  {
    DistinctTypeGroups(leaders, "diretoria", "pastor", "lider_departamento");
  }

  lemma DistinctTypeGroups(leaders: seq<Leader>, t1: string, t2: string, t3: string)
    requires t1 != t2 && t1 != t3 && t2 != t3
    ensures forall l :: !(l in Filter(leaders, OfType(t1)) && l in Filter(leaders, OfType(t2)))
    ensures forall l :: !(l in Filter(leaders, OfType(t1)) && l in Filter(leaders, OfType(t3)))
    ensures forall l :: !(l in Filter(leaders, OfType(t2)) && l in Filter(leaders, OfType(t3)))
    ensures multiset(Filter(leaders, OfType(t1))) + multiset(Filter(leaders, OfType(t2)))
      + multiset(Filter(leaders, OfType(t3))) <= multiset(leaders)
  {
    FilterDisjoint(leaders, OfType(t1), OfType(t2));
    FilterDisjoint(leaders, OfType(t1), OfType(t3));
    FilterDisjoint(leaders, OfType(t2), OfType(t3));
    DisjointFilterCounts(leaders, OfType(t1), OfType(t2), OfType(t3));
  }

  /** Filters by pairwise exclusive predicates together take each element at most once. */
  lemma DisjointFilterCounts<T(!new)>(s: seq<T>, p: T -> bool, q: T -> bool, u: T -> bool)
    requires forall x :: !(p(x) && q(x)) && !(p(x) && u(x)) && !(q(x) && u(x))
    ensures multiset(Filter(s, p)) + multiset(Filter(s, q)) + multiset(Filter(s, u)) <= multiset(s)
  {
    FilterMultiset(s, p);
    FilterMultiset(s, q);
    FilterMultiset(s, u);
    var a, b, c := multiset(Filter(s, p)), multiset(Filter(s, q)), multiset(Filter(s, u));
    forall x ensures (a + b + c)[x] <= multiset(s)[x] {
      assert (a + b + c)[x] == a[x] + b[x] + c[x];
    }
  }

  /** `s.replace(/\D/g, '')`: the decimal digits of `s`, in order. */
  function DigitsOnly(s: string): string {
    Filter(s, IsDigit)
  }

  /** Only the digits remain, in their order, each as often as in the input. */
  lemma DigitsOnlySpec(s: string)
    ensures AllDigits(DigitsOnly(s))
    ensures Subseq(DigitsOnly(s), s)
    ensures forall c :: multiset(DigitsOnly(s))[c] == if IsDigit(c) then multiset(s)[c] else 0
    ensures AllDigits(s) ==> DigitsOnly(s) == s
  {
    var r := DigitsOnly(s);
    forall i | 0 <= i < |r| ensures IsDigit(r[i]) {
      assert r[i] in r;
    }
    FilterIsSubseq(s, IsDigit);
    FilterMultiset(s, IsDigit);
    if AllDigits(s) {
      FilterAll(s, IsDigit);
    }
  }

  /** The links on a leader card; `None` when the link is not rendered. */
  datatype ContactLinks = ContactLinks(whatsapp: Option<string>, phone: Option<string>, email: Option<string>)

  function WhatsAppLink(number: string): string {
    "https://wa.me/" + DigitsOnly(number)
  }

  /** The WhatsApp, `tel:` and `mailto:` links, each rendered only when its field is set. */
  function ContactLinksOf(l: Leader): (r: ContactLinks)
    ensures r.whatsapp.Some? <==> TruthyText(l.whatsapp)
    ensures r.phone.Some? <==> TruthyText(l.phone)
    ensures r.email.Some? <==> TruthyText(l.email)
    ensures r.phone.Some? ==> StartsWith(r.phone.value, "tel:") && r.phone.value[4..] == l.phone.value
    ensures r.email.Some? ==> StartsWith(r.email.value, "mailto:") && r.email.value[7..] == l.email.value
  {
    ContactLinks(
      if TruthyText(l.whatsapp) then Some(WhatsAppLink(l.whatsapp.value)) else None,
      if TruthyText(l.phone) then Some("tel:" + l.phone.value) else None,
      if TruthyText(l.email) then Some("mailto:" + l.email.value) else None)
  }

  /** A WhatsApp link is the `wa.me` prefix followed by nothing but the number's digits. */
  lemma WhatsAppLinkForm(l: Leader)
    requires TruthyText(l.whatsapp)
    ensures var link := ContactLinksOf(l).whatsapp.value;
            StartsWith(link, "https://wa.me/") && link[14..] == DigitsOnly(l.whatsapp.value)
            && AllDigits(link[14..])
  {
    DigitsOnlySpec(l.whatsapp.value);
  }

  /** Stripping non-digits distributes over concatenation. */
  lemma DigitsOnlyConcat(a: string, b: string)
    ensures DigitsOnly(a + b) == DigitsOnly(a) + DigitsOnly(b)
  {
    FilterConcat(a, b, IsDigit);
  }
}
