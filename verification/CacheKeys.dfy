/** The names under which cached responses, tag sets and refresh locks are stored. */
module CacheKeys {
  import opened Text

  const NAMESPACE: string := "cache:v1"

  /** Everything a call site can ask the `keys` module to name. A user id stands for its
      printed UUID. */
  datatype Request =
    | Leaderboard(category: string, limit: int, offset: int)
    | PlayerStats(userId: string)
    | TournamentList(status: string, page: int)

  function Key(r: Request): string {
    match r
    case Leaderboard(c, l, o) => "leaderboard:" + c + ":" + Integer(l) + ":" + Integer(o)
    case PlayerStats(u) => "player_stats:" + u
    case TournamentList(s, p) => "tournaments:" + s + ":" + Integer(p)
  }

  function Qualified(key: string): string {
    NAMESPACE + ":" + key
  }

  function TagKey(tag: string): string {
    NAMESPACE + ":tag:" + tag
  }

  function LockKey(key: string): string {
    NAMESPACE + ":refresh:" + key
  }

  /** Distinct requests never share a cache entry, for all strings and integers. */
  lemma KeyInjective(r: Request, r': Request)
    ensures Key(r) == Key(r') <==> r == r'
  {
    match (r, r')
    case (Leaderboard(c, l, o), Leaderboard(c', l', o')) =>
      IntegerAvoids(o, ':');
      IntegerAvoids(o', ':');
      IntegerAvoids(l, ':');
      IntegerAvoids(l', ':');
      SplitAtLast("leaderboard:" + c + ":" + Integer(l), Integer(o), "leaderboard:" + c' + ":" + Integer(l'), Integer(o'), ':');
      SplitAtLast("leaderboard:" + c, Integer(l), "leaderboard:" + c', Integer(l'), ':');
      DropPrefix("leaderboard:", c, c');
      IntegerInjective(o, o');
      IntegerInjective(l, l');
    case (TournamentList(s, p), TournamentList(s', p')) =>
      IntegerAvoids(p, ':');
      IntegerAvoids(p', ':');
      SplitAtLast("tournaments:" + s, Integer(p), "tournaments:" + s', Integer(p'), ':');
      DropPrefix("tournaments:", s, s');
      IntegerInjective(p, p');
    case (PlayerStats(u), PlayerStats(u')) =>
      DropPrefix("player_stats:", u, u');
    case _ =>
      assert Key(r)[0] != Key(r')[0];
  }

  lemma DropPrefix(p: string, a: string, b: string)
    ensures p + a == p + b <==> a == b
  {
    assert (p + a)[|p|..] == a && (p + b)[|p|..] == b;
  }

  /** The stored names of a response, of any tag and of any key's refresh lock are
      pairwise different, and each family is injective. */
  lemma NamesNeverCollide(r: Request, r': Request, tag: string, tag': string, key: string, key': string)
    ensures Qualified(Key(r)) != TagKey(tag)
    ensures Qualified(Key(r)) != LockKey(key)
    ensures TagKey(tag) != LockKey(key)
    ensures Qualified(Key(r)) == Qualified(Key(r')) <==> r == r'
    ensures TagKey(tag) == TagKey(tag') <==> tag == tag'
    ensures LockKey(key) == LockKey(key') <==> key == key'
  {
    var n := |NAMESPACE|;
    assert TagKey(tag)[n + 1] == 't' && TagKey(tag)[n + 2] == 'a' && LockKey(key)[n + 1] == 'r';
    assert Qualified(Key(r))[n + 1] == Key(r)[0] && Qualified(Key(r))[n + 2] == Key(r)[1];
    assert Key(r)[0] != 'r' && !(Key(r)[0] == 't' && Key(r)[1] == 'a');
    DropPrefix(NAMESPACE + ":", Key(r), Key(r'));
    KeyInjective(r, r');
    DropPrefix(NAMESPACE + ":tag:", tag, tag');
    DropPrefix(NAMESPACE + ":refresh:", key, key');
  }
}
