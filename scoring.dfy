/** The rush sheets read as records, and the engagement score of
    `backend/rush.js`: the points one brother earns from the recruits they met,
    liked, disliked or are the primary contact of and from their comments, the
    comment-rate multiplier, and the badges. */
module Scoring {
  import opened Wrappers
  import opened Text
  import opened Sheets
  import opened Json

  // ---------------------------------------------------------------------------
  // Header lookups
  // ---------------------------------------------------------------------------

  /** `headers.indexOf(name)`: the first column with that header. */
  function FirstIndex(headers: seq<string>, name: string): (r: Option<nat>)
    ensures r.Some? ==> r.value < |headers| && headers[r.value] == name
    ensures r.Some? ==> forall j :: 0 <= j < r.value ==> headers[j] != name
    ensures r.None? <==> name !in headers
    decreases |headers|
  {
    if headers == [] then None
    else if headers[0] == name then Some(0)
    else
      match FirstIndex(headers[1..], name)
      case Some(j) => Some(j + 1)
      case None => None
  }

  /** `Object.fromEntries(headers.map((col, i) => [col, i]))[name]`: a
      repeated header keeps its last column. */
  function HeaderIndex(headers: seq<string>, name: string): (r: Option<nat>)
    ensures r.Some? ==> r.value < |headers| && headers[r.value] == name
    ensures r.Some? ==> forall j :: r.value < j < |headers| ==> headers[j] != name
    ensures r.None? <==> name !in headers
    decreases |headers|
  {
    if headers == [] then None
    else if headers[|headers| - 1] == name then Some(|headers| - 1)
    else
      var r := HeaderIndex(headers[..|headers| - 1], name);
      assert forall j :: 0 <= j < |headers| - 1 ==> headers[j] == headers[..|headers| - 1][j];
      r
  }

  /** With distinct headers the two lookups agree. */
  lemma {:induction false} IndexesAgree(headers: seq<string>, name: string)
    requires forall i, j :: 0 <= i < j < |headers| ==> headers[i] != headers[j]
    ensures FirstIndex(headers, name) == HeaderIndex(headers, name)
  {
    var f := FirstIndex(headers, name);
    var h := HeaderIndex(headers, name);
    if f.Some? {
      assert h.Some?;
    }
  }

  /** `row[c]` for a column found by header: `None` when the header is
      missing or the row is shorter. */
  function Field(row: Row, c: Option<nat>): Option<string> {
    if c.Some? && c.value < |row| then Some(row[c.value]) else None
  }

  /** `row[c] || fallback`. */
  function FieldOr(row: Row, c: Option<nat>, fallback: string): (r: string)
    ensures Field(row, c).Some? && Field(row, c).value != "" ==> r == Field(row, c).value
    ensures (Field(row, c).None? || Field(row, c).value == "") ==> r == fallback
  {
    match Field(row, c)
    case Some(v) => if v != "" then v else fallback
    case None => fallback
  }

  /** `String(row[c])`: a missing cell reads as "undefined". */
  function FieldText(row: Row, c: Option<nat>): string {
    match Field(row, c)
    case Some(v) => v
    case None => "undefined"
  }

  // ---------------------------------------------------------------------------
  // Records
  // ---------------------------------------------------------------------------

  /** A recruit as `getRecruitsForRush` projects a row. */
  datatype Recruit = Recruit(
    id: Option<string>, name: Option<string>, email: Option<string>, phone: Option<string>,
    instagram: Option<string>, tier: Option<string>, photoURL: Option<string>,
    primaryContacts: seq<string>, likes: string, dislikes: string, met: string)

  /** One data row of a recruits sheet under its header row. */
  function RecruitOf(headers: Row, r: Row): (x: Recruit)
    ensures x.likes != "" && x.dislikes != "" && x.met != ""
    ensures forall i :: 0 <= i < |x.primaryContacts| ==> x.primaryContacts[i] != ""
  {
    var contacts := TrimmedPieces(FieldOr(r, HeaderIndex(headers, "PrimaryContacts"), ""), ',');
    assert forall i :: 0 <= i < |contacts| ==> contacts[i] in contacts;
    Recruit(
      Field(r, HeaderIndex(headers, "ID")), Field(r, HeaderIndex(headers, "Name")),
      Field(r, HeaderIndex(headers, "Email")), Field(r, HeaderIndex(headers, "Phone")),
      Field(r, HeaderIndex(headers, "Instagram")), Field(r, HeaderIndex(headers, "Tier")),
      Field(r, HeaderIndex(headers, "PhotoURL")),
      contacts,
      FieldOr(r, HeaderIndex(headers, "Likes"), "[]"),
      FieldOr(r, HeaderIndex(headers, "Dislikes"), "[]"),
      FieldOr(r, HeaderIndex(headers, "Met"), "[]"))
  }

  /** `getRecruitsForRush` on the rows it read: nothing for a sheet with no
      data rows, otherwise one recruit per data row, in order. */
  function RecruitsOf(data: Table): (rs: seq<Recruit>)
    ensures |data| <= 1 ==> rs == []
    ensures |data| > 1 ==> |rs| == |data| - 1 && forall i :: 1 <= i < |data| ==> rs[i - 1] == RecruitOf(data[0], data[i])
  {
    if |data| <= 1 then [] else seq(|data| - 1, i requires 0 <= i < |data| - 1 => RecruitOf(data[0], data[i + 1]))
  }

  /** A comment as `getCommentsForRush` projects a row; its timestamp is not
      part of this model. */
  datatype Comment = Comment(commentId: Option<string>, recruitId: Option<string>, author: Option<string>, text: Option<string>)

  function CommentOf(headers: Row, r: Row): Comment {
    Comment(Field(r, HeaderIndex(headers, "CommentID")), Field(r, HeaderIndex(headers, "RecruitID")),
      Field(r, HeaderIndex(headers, "Author")), Field(r, HeaderIndex(headers, "Text")))
  }

  function CommentsOf(data: Table): (cs: seq<Comment>)
    ensures |data| <= 1 ==> cs == []
    ensures |data| > 1 ==> |cs| == |data| - 1 && forall i :: 1 <= i < |data| ==> cs[i - 1] == CommentOf(data[0], data[i])
  {
    if |data| <= 1 then [] else seq(|data| - 1, i requires 0 <= i < |data| - 1 => CommentOf(data[0], data[i + 1]))
  }

  // ---------------------------------------------------------------------------
  // One brother's score
  // ---------------------------------------------------------------------------

  /** `JSON.parse(cell).includes(name)`, false when the cell does not parse. */
  predicate Lists(cell: string, name: string) {
    match DecodeNames(cell)
    case Some(xs) => name in xs
    case None => false
  }

  /** `JSON.parse(cell)[0] === name`. */
  predicate ListsFirst(cell: string, name: string) {
    match DecodeNames(cell)
    case Some(xs) => xs != [] && xs[0] == name
    case None => false
  }

  /** The property name an id takes as an object key: `undefined` becomes
      "undefined". */
  function KeyText(id: Option<string>): string {
    if id.Some? then id.value else "undefined"
  }

  predicate IsBid(r: Recruit) { r.tier == Some("4") }

  /** The points one recruit gives the brother; `commented` holds the keys
      of the recruits they commented on. */
  function RecruitPoints(name: string, r: Recruit, commented: set<string>): (p: nat)
    ensures (!Lists(r.met, name) && !Lists(r.likes, name) && !Lists(r.dislikes, name)
      && name !in r.primaryContacts) ==> p == 0
    ensures Lists(r.met, name) ==> p >= 6
    ensures ListsFirst(r.met, name) ==> p >= 16
    ensures Lists(r.dislikes, name) ==> p >= 5
    ensures name in r.primaryContacts ==> p >= 50
    ensures name in r.primaryContacts && IsBid(r) ==> p >= 100
    ensures p <= 6 + 10 + 5 + 8 + 8 + 50 + 50
  {
    var met := Lists(r.met, name);
    var has := KeyText(r.id) in commented;
    (if met then 6 + (if ListsFirst(r.met, name) then 10 else 0) else 0)
    + (if Lists(r.likes, name) then
         (if met then (if has then 5 else 2) else 0) + (if ListsFirst(r.likes, name) then 8 else 0)
       else 0)
    + (if Lists(r.dislikes, name) then (if has then 8 else 5) else 0)
    + (if name in r.primaryContacts then 50 + (if IsBid(r) then 50 else 0) else 0)
  }

  /** Being first in the met list is worth exactly 10 more than being met
      further down. */
  lemma RecruitPointsFirstMet(name: string, r: Recruit, met: string, commented: set<string>)
    requires ListsFirst(r.met, name) && Lists(met, name) && !ListsFirst(met, name)
    ensures RecruitPoints(name, r, commented) == RecruitPoints(name, r.(met := met), commented) + 10
  {
  }

  /** Being first in the likes list is worth exactly 8 more than being a
      later liker. */
  lemma RecruitPointsFirstLike(name: string, r: Recruit, likes: string, commented: set<string>)
    requires ListsFirst(r.likes, name) && Lists(likes, name) && !ListsFirst(likes, name)
    ensures RecruitPoints(name, r, commented) == RecruitPoints(name, r.(likes := likes), commented) + 8
  {
  }

  /** A comment on the recruit raises a like of a recruit they met from 2 to
      5 and a dislike from 5 to 8; nothing else depends on it. */
  lemma RecruitPointsComment(name: string, r: Recruit, commented: set<string>)
    requires KeyText(r.id) !in commented
    ensures RecruitPoints(name, r, commented + {KeyText(r.id)})
      == RecruitPoints(name, r, commented)
         + (if Lists(r.met, name) && Lists(r.likes, name) then 3 else 0)
         + (if Lists(r.dislikes, name) then 3 else 0)
  {
  }

  /** A like without a meeting earns only the first-liker bonus, comment or
      not. */
  lemma RecruitPointsLikeUnmet(name: string, r: Recruit, commented: set<string>)
    requires !Lists(r.met, name) && Lists(r.likes, name)
    requires !Lists(r.dislikes, name) && name !in r.primaryContacts
    ensures RecruitPoints(name, r, commented) == (if ListsFirst(r.likes, name) then 8 else 0)
  {
  }

  /** Becoming a primary contact adds 50, and 100 when the recruit has a
      bid. */
  lemma RecruitPointsContact(name: string, r: Recruit, commented: set<string>)
    requires name !in r.primaryContacts
    ensures RecruitPoints(name, r.(primaryContacts := r.primaryContacts + [name]), commented)
      == RecruitPoints(name, r, commented) + (if IsBid(r) then 100 else 50)
  {
  }

  /** A bid on a recruit they are the primary contact of adds exactly 50;
      for anyone else it changes nothing. */
  lemma RecruitPointsBid(name: string, r: Recruit, commented: set<string>)
    requires !IsBid(r)
    ensures name in r.primaryContacts ==>
      RecruitPoints(name, r.(tier := Some("4")), commented) == RecruitPoints(name, r, commented) + 50
    ensures name !in r.primaryContacts ==>
      RecruitPoints(name, r.(tier := Some("4")), commented) == RecruitPoints(name, r, commented)
  {
  }

  /** The points of one of their comments: 5, and 10 more from 100 UTF-16
      code units or 5 more from 50. */
  function CommentPoints(text: Option<string>): (p: nat)
    ensures 5 <= p <= 15
    ensures text.None? ==> p == 5
    ensures text.Some? && |text.value| >= 100 ==> p == 15
  {
    var len := if text.Some? then Utf16Length(text.value) else 0;
    5 + (if len >= 100 then 10 else if len >= 50 then 5 else 0)
  }

  /** The counters `calculateBrotherStats` keeps while it walks the
      recruits. */
  datatype Tally = Tally(met: nat, liked: nat, disliked: nat, bidBonus: nat, points: nat)

  function TallyRecruits(name: string, rs: seq<Recruit>, commented: set<string>): (t: Tally)
    ensures t.met <= |rs| && t.liked <= |rs| && t.disliked <= |rs|
    decreases |rs|
  {
    if rs == [] then Tally(0, 0, 0, 0, 0)
    else
      var t := TallyRecruits(name, rs[..|rs| - 1], commented);
      var r := rs[|rs| - 1];
      Tally(
        t.met + (if Lists(r.met, name) then 1 else 0),
        t.liked + (if Lists(r.likes, name) then 1 else 0),
        t.disliked + (if Lists(r.dislikes, name) then 1 else 0),
        t.bidBonus + (if name in r.primaryContacts && IsBid(r) then 50 else 0),
        t.points + RecruitPoints(name, r, commented))
  }

  /** The brother's own comments, in order. */
  function Own(name: string, cs: seq<Comment>): (r: seq<Comment>)
    ensures |r| <= |cs|
    ensures forall i :: 0 <= i < |r| ==> r[i].author == Some(name)
    decreases |cs|
  {
    if cs == [] then []
    else Own(name, cs[..|cs| - 1]) + (if cs[|cs| - 1].author == Some(name) then [cs[|cs| - 1]] else [])
  }

  /** The keys of the recruits their comments are on. */
  function Commented(own: seq<Comment>): set<string>
    decreases |own|
  {
    if own == [] then {} else Commented(own[..|own| - 1]) + {KeyText(own[|own| - 1].recruitId)}
  }

  function CommentsPoints(own: seq<Comment>): (p: nat)
    ensures 5 * |own| <= p <= 15 * |own|
    decreases |own|
  {
    if own == [] then 0 else CommentsPoints(own[..|own| - 1]) + CommentPoints(own[|own| - 1].text)
  }

  /** The comment-rate multiplier: with `votes` likes and dislikes, a rate
      of comments per vote of at least 0.75 gives `Math.round(p * 1.5)`, at
      least 0.5 gives `Math.round(p * 1.2)`, and otherwise (or with no
      votes) the points stay. The rates are compared in whole numbers. */
  function Scale(p: nat, comments: nat, votes: nat): (r: nat)
    ensures votes > 0 && 4 * comments >= 3 * votes ==> 3 * p <= 2 * r <= 3 * p + 1
    ensures votes > 0 && 4 * comments < 3 * votes && 2 * comments >= votes ==>
      12 * p - 5 <= 10 * r <= 12 * p + 4
    ensures votes == 0 || 2 * comments < votes ==> r == p
    ensures r >= p
  {
    if votes > 0 && 4 * comments >= 3 * votes then (3 * p + 1) / 2
    else if votes > 0 && 2 * comments >= votes then (12 * p + 5) / 10
    else p
  }

  /** More points before the multiplier never give fewer after it. */
  lemma ScaleMonotone(p: nat, q: nat, comments: nat, votes: nat)
    requires p <= q
    ensures Scale(p, comments, votes) <= Scale(q, comments, votes)
  {
  }

  /** `calculateBrotherStats`. */
  datatype Stats = Stats(name: string, met: nat, liked: nat, disliked: nat, comments: nat, bidBonus: nat, points: nat)

  function BrotherStats(name: string, rs: seq<Recruit>, cs: seq<Comment>): (r: Stats)
    ensures r.name == name && r.comments <= |cs|
    ensures r.met <= |rs| && r.liked <= |rs| && r.disliked <= |rs|
    ensures r.points >= 5 * r.comments
  {
    var own := Own(name, cs);
    var t := TallyRecruits(name, rs, Commented(own));
    var base := t.points + CommentsPoints(own);
    Stats(name, t.met, t.liked, t.disliked, |own|, t.bidBonus, Scale(base, |own|, t.liked + t.disliked))
  }

  /** What the tally adds up to at least: 6 per recruit met, 5 per recruit
      disliked, and the bid bonus twice (50 for the contact, 50 for the
      bid). */
  lemma {:induction false} TallyLowerBound(name: string, rs: seq<Recruit>, commented: set<string>)
    ensures var t := TallyRecruits(name, rs, commented);
      t.points >= 6 * t.met + 5 * t.disliked + 2 * t.bidBonus
    decreases |rs|
  {
    if rs != [] {
      TallyLowerBound(name, rs[..|rs| - 1], commented);
    }
  }

  /** A brother's score is at least what their visits, dislikes, bids and
      comments give before the multiplier, and the multiplier never
      lowers it. */
  lemma PointsLowerBound(name: string, rs: seq<Recruit>, cs: seq<Comment>)
    ensures var s := BrotherStats(name, rs, cs);
      s.points >= 6 * s.met + 5 * s.disliked + 2 * s.bidBonus + 5 * s.comments
  {
    TallyLowerBound(name, rs, Commented(Own(name, cs)));
  }

  /** Someone else's comment changes nothing in a brother's stats. */
  lemma OthersCommentIgnored(name: string, rs: seq<Recruit>, cs: seq<Comment>, c: Comment)
    requires c.author != Some(name)
    ensures BrotherStats(name, rs, cs + [c]) == BrotherStats(name, rs, cs)
  {
    assert (cs + [c])[..|cs|] == cs;
    assert Own(name, cs + [c]) == Own(name, cs);
  }

  /** A recruit that does not involve the brother gives them nothing. */
  lemma {:induction false} TallyStranger(name: string, rs: seq<Recruit>, commented: set<string>)
    requires forall i :: 0 <= i < |rs| ==>
      !Lists(rs[i].met, name) && !Lists(rs[i].likes, name) && !Lists(rs[i].dislikes, name)
      && name !in rs[i].primaryContacts
    ensures TallyRecruits(name, rs, commented) == Tally(0, 0, 0, 0, 0)
    decreases |rs|
  {
    if rs != [] {
      TallyStranger(name, rs[..|rs| - 1], commented);
    }
  }

  lemma {:induction false} OwnNone(name: string, cs: seq<Comment>)
    requires forall i :: 0 <= i < |cs| ==> cs[i].author != Some(name)
    ensures Own(name, cs) == []
    decreases |cs|
  {
    if cs != [] {
      OwnNone(name, cs[..|cs| - 1]);
    }
  }

  // ---------------------------------------------------------------------------
  // Badges
  // ---------------------------------------------------------------------------

  const SocialButterfly := "Social Butterfly"
  const Commentator := "Commentator"
  const HypeMan := "Hype Man"
  const RushMvp := "Rush MVP"

  /** The place of each badge in the order `calculateBadges` emits them. */
  function Rank(badge: string): nat {
    if badge == SocialButterfly then 0
    else if badge == Commentator then 1
    else if badge == HypeMan then 2
    else 3
  }

  /** `calculateBadges`, by name: met at least three quarters of at least
      one recruit, 10 comments, 5 likes, 50 points. */
  function Badges(s: Stats, totalRecruits: nat): (b: seq<string>)
    ensures SocialButterfly in b <==> totalRecruits > 0 && 4 * s.met >= 3 * totalRecruits
    ensures Commentator in b <==> s.comments >= 10
    ensures HypeMan in b <==> s.liked >= 5
    ensures RushMvp in b <==> s.points >= 50
    ensures forall i, j :: 0 <= i < j < |b| ==> Rank(b[i]) < Rank(b[j])
  {
    (if 4 * s.met >= 3 * totalRecruits && totalRecruits > 0 then [SocialButterfly] else [])
    + (if s.comments >= 10 then [Commentator] else [])
    + (if s.liked >= 5 then [HypeMan] else [])
    + (if s.points >= 50 then [RushMvp] else [])
  }

  /** A brother no recruit lists, who is no one's primary contact and wrote
      no comment, scores nothing and earns no badge. */
  lemma Stranger(name: string, rs: seq<Recruit>, cs: seq<Comment>)
    requires forall i :: 0 <= i < |rs| ==>
      !Lists(rs[i].met, name) && !Lists(rs[i].likes, name) && !Lists(rs[i].dislikes, name)
      && name !in rs[i].primaryContacts
    requires forall i :: 0 <= i < |cs| ==> cs[i].author != Some(name)
    ensures BrotherStats(name, rs, cs) == Stats(name, 0, 0, 0, 0, 0, 0)
    ensures Badges(BrotherStats(name, rs, cs), |rs|) == []
  {
    OwnNone(name, cs);
    TallyStranger(name, rs, Commented([]));
  }
}
