/**
The penguins of the DirectFB viewer: a linked list with a tail pointer and a count, batched drawing,
and movement into a formation. Random numbers are parameters.
*/
module Penguins {

  const XSPRITESIZE := 40
  const YSPRITESIZE := 60
  const FRAMES := 9
  const BATCH := 256

  datatype Direction = Left | Right | Up | Down

  /** The state of a penguin; its animation frames are places in the rings of the directions. */
  datatype State = State(x: int, y: int, xTogo: int, yTogo: int, moving: bool, delay: nat, facing: Direction,
                         left: nat, right: nat, up: nat, down: nat)

  /** What is drawn: the frame and the place. */
  datatype Sprite = Sprite(facing: Direction, frame: nat, x: int, y: int)

  function FrameOf(s: State): nat
  {
    match s.facing case Left => s.left case Right => s.right case Up => s.up case Down => s.down
  }

  function SpriteOf(s: State): Sprite { Sprite(s.facing, FrameOf(s), s.x, s.y) }

  /** calloc and the assignments of spawn_penguin. */
  function Spawned(xres: int, yres: int): State
  {
    State(Halved(xres), Halved(yres), 0, 0, true, 5, Down, 0, 0, 0, 0)
  }

  /** Division by two, cutting towards zero. */
  function Halved(n: int): int { if n >= 0 then n / 2 else -(-n / 2) }

  function Abs(n: int): int { if n < 0 then -n else n }

  // ---------- one move ----------

  /** Distances below the step are dropped. */
  function Cut(togo: int, step: int): int { if Abs(togo) < step then 0 else togo }

  /** A penguin that is there gets a new aim, or jitters, by two random numbers. */
  function Aimed(s: State, step: int, rx: nat, ry: nat): State
  {
    var xTogo, yTogo := Cut(s.xTogo, step), Cut(s.yTogo, step);
    if xTogo != 0 || yTogo != 0 then s.(xTogo := xTogo, yTogo := yTogo)
    else if s.moving then s.(xTogo := rx % 100 - 50, yTogo := ry % 100 - 50)
    else s.(xTogo := 0, yTogo := 0, facing := Down, x := s.x + (rx % 3 - 1), y := s.y + (ry % 3 - 1))
  }

  /** One coordinate: a step towards the aim, and one back when the first went past it. */
  function Stepped(at: int, togo: int, step: int): (r: (int, int))
  {
    var (at1, togo1) := if togo > 0 then (at - step, togo - step) else (at, togo);
    if togo1 < 0 then (at1 + step, togo1 + step) else (at1, togo1)
  }

  /** Where a penguin looks after a step on one axis. */
  function Faced(facing: Direction, togo: int, step: int, ahead: Direction, back: Direction): Direction
  {
    if togo < 0 || 0 < togo < step then back else if togo > 0 then ahead else facing
  }

  function WalkedX(s: State, step: int): State
  {
    var (x, togo) := Stepped(s.x, s.xTogo, step);
    s.(x := x, xTogo := togo, facing := Faced(s.facing, s.xTogo, step, Left, Right))
  }

  function WalkedY(s: State, step: int): State
  {
    var (y, togo) := Stepped(s.y, s.yTogo, step);
    s.(y := y, yTogo := togo, facing := Faced(s.facing, s.yTogo, step, Up, Down))
  }

  function Clip(at: int, limit: int): int
  {
    var a := if at < 0 then 0 else at;
    if a > limit then limit else a
  }

  function Clipped(s: State, xres: int, yres: int): State
  {
    s.(x := Clip(s.x, xres - XSPRITESIZE), y := Clip(s.y, yres - YSPRITESIZE))
  }

  /** Every sixth move turns the frame of the direction the penguin looks in. */
  function Animated(s: State): State
  {
    if s.delay > 0 then s.(delay := s.delay - 1)
    else
      match s.facing
      case Left => s.(left := (s.left + 1) % FRAMES, delay := 5)
      case Right => s.(right := (s.right + 1) % FRAMES, delay := 5)
      case Up => s.(up := (s.up + 1) % FRAMES, delay := 5)
      case Down => s.(down := (s.down + 1) % FRAMES, delay := 5)
  }

  function Moved(s: State, step: int, rx: nat, ry: nat, xres: int, yres: int): State
  {
    Animated(Clipped(WalkedY(WalkedX(Aimed(s, step, rx, ry), step), step), xres, yres))
  }

  class Penguin {
    var x: int
    var y: int
    var xTogo: int
    var yTogo: int
    var moving: bool
    var delay: nat
    var facing: Direction
    var left: nat
    var right: nat
    var up: nat
    var down: nat
    var next: Penguin?

    ghost function Current(): State
      reads this
    {
      State(x, y, xTogo, yTogo, moving, delay, facing, left, right, up, down)
    }

    constructor (xres: int, yres: int)
      ensures Current() == Spawned(xres, yres) && next == null
    {
      x, y, xTogo, yTogo, moving, delay := Halved(xres), Halved(yres), 0, 0, true, 5;
      left, right, up, down, facing, next := 0, 0, 0, 0, Down, null;
    }

    /** One round of the loop of move_penguins. */
    method Move(step: int, rx: nat, ry: nat, xres: int, yres: int)
      modifies this
      ensures Current() == Moved(old(Current()), step, rx, ry, xres, yres) && next == old(next)
    {
      Aim(step, rx, ry);
      StepX(step);
      StepY(step);
      ClipTo(xres, yres);
      Animate();
    }

    method Aim(step: int, rx: nat, ry: nat)
      modifies this
      ensures Current() == Aimed(old(Current()), step, rx, ry) && next == old(next)
    {
      if Abs(xTogo) < step { xTogo := 0; }
      if Abs(yTogo) < step { yTogo := 0; }
      if xTogo == 0 && yTogo == 0 {
        if moving {
          xTogo := rx % 100 - 50;
          yTogo := ry % 100 - 50;
        } else {
          facing := Down;
          x := x + (rx % 3 - 1);
          y := y + (ry % 3 - 1);
        }
      }
    }

    method StepX(step: int)
      modifies this
      ensures Current() == WalkedX(old(Current()), step) && next == old(next)
    {
      if xTogo > 0 {
        x := x - step;
        xTogo := xTogo - step;
        facing := Left;
      }
      if xTogo < 0 {
        x := x + step;
        xTogo := xTogo + step;
        facing := Right;
      }
    }

    method StepY(step: int)
      modifies this
      ensures Current() == WalkedY(old(Current()), step) && next == old(next)
    {
      if yTogo > 0 {
        y := y - step;
        yTogo := yTogo - step;
        facing := Up;
      }
      if yTogo < 0 {
        y := y + step;
        yTogo := yTogo + step;
        facing := Down;
      }
    }

    method ClipTo(xres: int, yres: int)
      modifies this
      ensures Current() == Clipped(old(Current()), xres, yres) && next == old(next)
    {
      if x < 0 { x := 0; }
      if y < 0 { y := 0; }
      if x > xres - XSPRITESIZE { x := xres - XSPRITESIZE; }
      if y > yres - YSPRITESIZE { y := yres - YSPRITESIZE; }
    }

    method Animate()
      modifies this
      ensures Current() == Animated(old(Current())) && next == old(next)
    {
      if delay == 0 {
        match facing {
          case Left => left := (left + 1) % FRAMES;
          case Right => right := (right + 1) % FRAMES;
          case Up => up := (up + 1) % FRAMES;
          case Down => down := (down + 1) % FRAMES;
        }
        delay := 5;
      } else {
        delay := delay - 1;
      }
    }

    method Draw() returns (s: Sprite)
      ensures s == SpriteOf(Current())
    {
      var frame;
      match facing {
        case Left => frame := left;
        case Right => frame := right;
        case Up => frame := up;
        case Down => frame := down;
      }
      s := Sprite(facing, frame, x, y);
    }
  }

  ghost function States(list: seq<Penguin>): (s: seq<State>)
    reads list
    ensures |s| == |list|
  {
    seq(|list|, i requires 0 <= i < |list| reads list => list[i].Current())
  }

  function Concat(batches: seq<seq<Sprite>>): seq<Sprite>
  {
    if batches == [] then [] else Concat(batches[..|batches| - 1]) + batches[|batches| - 1]
  }

  ghost function Sprites(states: seq<State>): (s: seq<Sprite>)
    ensures |s| == |states|
  {
    seq(|states|, i requires 0 <= i < |states| => SpriteOf(states[i]))
  }

  ghost function At(list: seq<Penguin>, i: nat): Penguin? { if i < |list| then list[i] else null }

  /** All batches but the last are full. */
  ghost predicate Sized(batches: seq<seq<Sprite>>, more: bool)
  {
    && (forall b :: b in batches ==> 0 < |b| <= 256)
    && forall i :: 0 <= i < |batches| ==> i < |batches| - 1 || more ==> |batches[i]| == 256
  }

  lemma {:induction false} ConcatMore(batches: seq<seq<Sprite>>, batch: seq<Sprite>, sprites: seq<Sprite>, done: nat)
    requires done + |batch| <= |sprites|
    requires Concat(batches) == sprites[..done] && batch == sprites[done..done + |batch|]
    ensures Concat(batches + [batch]) == sprites[..done + |batch|]
  {
    assert (batches + [batch])[..|batches|] == batches;
  }

  lemma {:induction false} AppendNext(batch: seq<Sprite>, s: Sprite, sprites: seq<Sprite>, done: nat)
    requires done + |batch| < |sprites| && batch == sprites[done..done + |batch|] && s == sprites[done + |batch|]
    ensures batch + [s] == sprites[done..done + |batch| + 1]
  {
  }

  lemma {:induction false} SizedMore(batches: seq<seq<Sprite>>, batch: seq<Sprite>, more: bool)
    requires Sized(batches, true) && 0 < |batch| <= BATCH && (more ==> |batch| == BATCH)
    ensures Sized(batches + [batch], more)
  {
  }

  ghost function AllMoved(was: seq<State>, step: int, random: nat -> (nat, nat), xres: int, yres: int): (s: seq<State>)
    ensures |s| == |was|
  {
    seq(|was|, i requires 0 <= i < |was| => Moved(was[i], step, random(i).0, random(i).1, xres, yres))
  }

  lemma {:induction false} OneChanged(after: seq<State>, now: seq<State>, k: nat, m: State)
    requires k < |now| == |after| && after[k] == m && forall i :: 0 <= i < |now| && i != k ==> after[i] == now[i]
    ensures after == now[k := m]
  {
  }

  lemma {:induction false} MixMore(target: seq<State>, was: seq<State>, k: nat)
    requires k < |target| == |was|
    ensures (target[..k] + was[k..])[k := target[k]] == target[..k + 1] + was[k + 1..]
  {
  }

  class Flock {
    var penguins: Penguin?
    var lastPenguin: Penguin?
    var population: int
    const xres: int
    const yres: int
    /** The penguins, first to last. */
    ghost var list: seq<Penguin>

    /** The list is the chain of next pointers: it ends, and so nothing occurs in it twice. */
    ghost predicate Linked()
      reads this, list
    {
      && (forall i, j :: 0 <= i < j < |list| ==> list[i] != list[j])
      && (forall i :: 0 <= i < |list| ==> list[i].next == At(list, i + 1))
      && penguins == At(list, 0)
    }

    ghost predicate Valid()
      reads this, list
    {
      Linked() && population == |list| && (list != [] ==> lastPenguin == list[|list| - 1])
    }

    constructor (xres: int, yres: int)
      ensures Valid() && list == [] && this.xres == xres && this.yres == yres
    {
      penguins, lastPenguin, population, list := null, null, 0, [];
      this.xres, this.yres := xres, yres;
    }

    /** Linking a penguin at the end of the list. */
    method Append(p: Penguin)
      requires Valid() && p !in list && p.next == null
      modifies this, lastPenguin
      ensures Valid() && list == old(list) + [p] && lastPenguin == p
      ensures States(list) == old(States(list + [p]))
    {
      if penguins == null {
        penguins := p;
        lastPenguin := p;
      } else {
        lastPenguin.next := p;
        lastPenguin := p;
      }
      population := population + 1;
      list := list + [p];
    }

    /** spawn_penguin. */
    method SpawnPenguin()
      requires Valid()
      modifies this, lastPenguin
      ensures Valid() && |list| == |old(list)| + 1 && list[..|old(list)|] == old(list) && fresh(list[|old(list)|])
      ensures States(list) == old(States(list)) + [Spawned(xres, yres)]
    {
      var newPenguin := new Penguin(xres, yres);
      assert States(list + [newPenguin]) == old(States(list)) + [Spawned(xres, yres)];
      Append(newPenguin);
    }

    /** spawn_penguins. */
    method SpawnPenguins(number: nat)
      requires Valid()
      modifies this, lastPenguin
      ensures Valid() && |list| == |old(list)| + number && list[..|old(list)|] == old(list)
      ensures States(list) == old(States(list)) + seq(number, _ => Spawned(xres, yres))
    {
      var k := 0;
      ghost var was, before := list, States(list);
      while k < number
        invariant 0 <= k <= number && Valid() && |list| == |was| + k && list[..|was|] == was
        invariant if k == 0 then lastPenguin == old(lastPenguin) else lastPenguin != null && fresh(lastPenguin)
        invariant States(list) == before + seq(k, _ => Spawned(xres, yres))
      {
        SpawnPenguin();
        k := k + 1;
      }
    }

    /** destroy_penguin: the first one is freed. */
    method DestroyPenguin()
      requires Valid()
      modifies this
      ensures Valid() && list == if old(list) == [] then [] else old(list)[1..]
    {
      if penguins != null {
        penguins := penguins.next;
        population := population - 1;
        list := list[1..];
      }
    }

    /** destroy_penguins. */
    method DestroyPenguins(number: nat)
      requires Valid()
      modifies this
      ensures Valid() && list == old(list)[if number < |old(list)| then number else |old(list)|..]
    {
      var k := 0;
      while k < number
        invariant 0 <= k <= number && Valid()
        invariant list == old(list)[if k < |old(list)| then k else |old(list)|..]
      {
        DestroyPenguin();
        k := k + 1;
      }
    }
  
    /** The inner loop of draw_penguins: at most 256 sprites, from the penguin at p on. */
    method Batch(p: Penguin?, j: int, ghost done: nat, ghost sprites: seq<Sprite>) returns (batch: seq<Sprite>, q: Penguin?)
      requires Valid() && 0 < j == |list| - done && p == At(list, done) && sprites == Sprites(States(list))
      ensures |batch| == (if j < BATCH then j else BATCH) && batch == sprites[done..done + |batch|]
      ensures q == At(list, done + |batch|)
    {
      batch := [];
      q := p;
      while |batch| < j && |batch| < BATCH
        invariant |batch| <= j && |batch| <= BATCH && q == At(list, done + |batch|)
        invariant batch == sprites[done..done + |batch|]
      {
        var s := q.Draw();
        assert s == sprites[done + |batch|];
        AppendNext(batch, s, sprites, done);
        batch := batch + [s];
        q := q.next;
      }
    }

    /** draw_penguins: the batches handed to BatchBlit. */
    method DrawPenguins() returns (batches: seq<seq<Sprite>>)
      requires Valid()
      ensures Concat(batches) == Sprites(States(list))
      ensures Sized(batches, false)
    {
      batches := [];
      var j := population;
      var p := penguins;
      ghost var sprites, done: nat := Sprites(States(list)), 0;
      while j > 0
        invariant 0 <= j && done + j == |list| && p == At(list, done)
        invariant Concat(batches) == sprites[..done] && Sized(batches, j > 0)
      {
        var batch, q := Batch(p, j, done, sprites);
        ConcatMore(batches, batch, sprites, done);
        SizedMore(batches, batch, j > |batch|);
        batches := batches + [batch];
        p := q;
        done := done + |batch|;
        j := j - |batch|;
      }
    }

    /** One round for the penguin in place k. */
    method MoveAt(p: Penguin, k: nat, step: int, rx: nat, ry: nat, ghost now: seq<State>, ghost m: State)
      requires Valid() && k < |list| && p == list[k] && States(list) == now
      requires m == Moved(now[k], step, rx, ry, xres, yres)
      modifies p
      ensures Valid() && list == old(list)
      ensures States(list) == now[k := m]
    {
      p.Move(step, rx, ry, xres, yres);
      OneChanged(States(list), now, k, m);
    }

    /** move_penguins; the random numbers of every penguin are given. */
    method MovePenguins(step: int, random: nat -> (nat, nat))
      requires Valid()
      modifies list
      ensures Valid() && list == old(list)
      ensures States(list) == AllMoved(old(States(list)), step, random, xres, yres)
    {
      var p := penguins;
      var k := 0;
      ghost var was := States(list);
      ghost var target := AllMoved(was, step, random, xres, yres);
      while p != null
        invariant 0 <= k <= |list| && Valid() && p == At(list, k) && |was| == |list|
        invariant States(list) == target[..k] + was[k..]
        decreases |list| - k
      {
        ghost var now := States(list);
        MoveAt(p, k, step, random(k).0, random(k).1, now, target[k]);
        MixMore(target, was, k);
        p := p.next;
        k := k + 1;
      }
    }

    /** destroy_all_penguins: it empties the list and leaves the population as it was. */
    method DestroyAllPenguins()
      requires Valid()
      modifies this
      ensures Linked() && list == [] && population == old(population)
      ensures Valid() <==> old(list) == []
    {
      var p := penguins;
      while p != null
        invariant Linked() && p == penguins && population == old(population)
        decreases |list|
      {
        penguins := p.next;
        list := list[1..];
        p := penguins;
      }
    }
  }

  // ---------- formations ----------

  /** A penguin of a formation after so many moves, whatever the random numbers are. */
  ghost function Marched(s: State, step: int, random: nat -> (nat, nat), xres: int, yres: int, n: nat): State
  {
    if n == 0 then s
    else Moved(Marched(s, step, random, xres, yres, n - 1), step, random(n - 1).0, random(n - 1).1, xres, yres)
  }

  function Towards(togo: int, d: int): int { if togo > 0 then d else -d }

  /** Place and distance on one axis after n moves, q whole steps away from the aim at the start. */
  ghost predicate OnWay(at0: int, togo0: int, at: int, togo: int, step: int, n: nat, q: nat)
  {
    && at == at0 - Towards(togo0, Steps(if n < q then n else q, step))
    && togo == if n <= q then togo0 - Towards(togo0, Steps(n, step)) else 0
  }

  /** So many steps. */
  ghost function Steps(n: nat, step: int): int { if n == 0 then 0 else Steps(n - 1, step) + step }

  /** The distance is q whole steps and less than one more. */
  ghost predicate Away(togo: int, step: int, q: nat)
  {
    Steps(q, step) <= Abs(togo) < Steps(q, step) + step
  }

  lemma {:induction false} StepsGrow(a: nat, b: nat, step: int)
    requires a < b && step > 0
    ensures 0 <= Steps(a, step) && Steps(a, step) + step <= Steps(b, step)
  {
    if a > 0 { StepsGrow(a - 1, a, step); }
    if a + 1 < b { StepsGrow(a, b - 1, step); }
  }

  /** One axis, one move, while the penguin is on its way. */
  lemma {:induction false} AxisStep(at0: int, togo0: int, at: int, togo: int, step: int, n: nat, q: nat, limit: int)
    requires step > 0 && Away(togo0, step, q) && OnWay(at0, togo0, at, togo, step, n, q)
    requires 0 <= at0 <= limit && 0 <= at0 - togo0 <= limit
    ensures (Cut(togo, step) != 0 <==> n < q)
    ensures var r := Stepped(at, Cut(togo, step), step); OnWay(at0, togo0, Clip(r.0, limit), r.1, step, n + 1, q)
  {
    StepsGrow(0, q + 1, step);
    if n < q {
      StepsGrow(n, q, step);
      if n + 1 < q { StepsGrow(n + 1, q, step); }
    }
  }

  /** A penguin sent to a formation point on the screen, q whole steps away on each axis. */
  ghost predicate Sent(s: State, step: int, xres: int, yres: int, qx: nat, qy: nat)
  {
    && !s.moving && step > 0 && Away(s.xTogo, step, qx) && Away(s.yTogo, step, qy)
    && 0 <= s.x <= xres - XSPRITESIZE && 0 <= s.x - s.xTogo <= xres - XSPRITESIZE
    && 0 <= s.y <= yres - YSPRITESIZE && 0 <= s.y - s.yTogo <= yres - YSPRITESIZE
  }

  /** A move of a penguin still on its way is a step on both axes. */
  lemma {:induction false} MovedOnAxes(m: State, step: int, rx: nat, ry: nat, xres: int, yres: int)
    requires Cut(m.xTogo, step) != 0 || Cut(m.yTogo, step) != 0
    ensures var r, rx, ry := Moved(m, step, rx, ry, xres, yres), Stepped(m.x, Cut(m.xTogo, step), step), Stepped(m.y, Cut(m.yTogo, step), step);
      && r.moving == m.moving
      && r.x == Clip(rx.0, xres - XSPRITESIZE) && r.xTogo == rx.1
      && r.y == Clip(ry.0, yres - YSPRITESIZE) && r.yTogo == ry.1
  {
  }

  /** Both axes after n moves. */
  ghost predicate Marching(s: State, m: State, step: int, n: nat, qx: nat, qy: nat)
  {
    !m.moving && OnWay(s.x, s.xTogo, m.x, m.xTogo, step, n, qx) && OnWay(s.y, s.yTogo, m.y, m.yTogo, step, n, qy)
  }

  lemma {:induction false} MarchStep(s: State, m: State, r: State, step: int, rx: nat, ry: nat, xres: int, yres: int, n: nat, qx: nat, qy: nat)
    requires Sent(s, step, xres, yres, qx, qy) && n > 0 && (n <= qx || n <= qy) && Marching(s, m, step, n - 1, qx, qy)
    requires r == Moved(m, step, rx, ry, xres, yres)
    ensures Marching(s, r, step, n, qx, qy)
  {
    AxisStep(s.x, s.xTogo, m.x, m.xTogo, step, n - 1, qx, xres - XSPRITESIZE);
    AxisStep(s.y, s.yTogo, m.y, m.yTogo, step, n - 1, qy, yres - YSPRITESIZE);
    MovedOnAxes(m, step, rx, ry, xres, yres);
  }

  /** Both axes go straight to the point, and the penguin does not jitter before both are there. */
  lemma {:induction false} MarchIsStraight(s: State, step: int, random: nat -> (nat, nat), xres: int, yres: int, n: nat, qx: nat, qy: nat)
    requires Sent(s, step, xres, yres, qx, qy) && (n <= qx || n <= qy)
    ensures Marching(s, Marched(s, step, random, xres, yres, n), step, n, qx, qy)
  {
    if n > 0 {
      MarchIsStraight(s, step, random, xres, yres, n - 1, qx, qy);
      var m, r := Marched(s, step, random, xres, yres, n - 1), Marched(s, step, random, xres, yres, n);
      MarchStep(s, m, r, step, random(n - 1).0, random(n - 1).1, xres, yres, n, qx, qy);
    }
  }

  /** What is missing to the formation point on an axis: less than one step, and just what whole steps leave over. */
  ghost predicate Near(at0: int, togo0: int, at: int, step: int, q: nat)
  {
    at - (at0 - togo0) == Towards(togo0, Abs(togo0) - Steps(q, step)) && Abs(at - (at0 - togo0)) < step
  }

  lemma {:induction false} AxisArrives(at0: int, togo0: int, at: int, togo: int, step: int, n: nat, q: nat)
    requires Away(togo0, step, q) && OnWay(at0, togo0, at, togo, step, n, q) && n >= q
    ensures Near(at0, togo0, at, step, q)
  {
  }

  /** When both axes are there, the penguin is near its formation point. */
  lemma {:induction false} ArrivesNearPoint(s: State, step: int, random: nat -> (nat, nat), xres: int, yres: int,
                                            n: nat, qx: nat, qy: nat)
    requires Sent(s, step, xres, yres, qx, qy) && n == if qx < qy then qy else qx
    ensures var m := Marched(s, step, random, xres, yres, n); Near(s.x, s.xTogo, m.x, step, qx) && Near(s.y, s.yTogo, m.y, step, qy)
  {
    MarchIsStraight(s, step, random, xres, yres, n, qx, qy);
    var m := Marched(s, step, random, xres, yres, n);
    AxisArrives(s.x, s.xTogo, m.x, m.xTogo, step, n, qx);
    AxisArrives(s.y, s.yTogo, m.y, m.yTogo, step, n, qy);
  }

  // ---------- what is seen ----------

  /** Going to its point, a penguin looks up or down while it has steps to go that way, and then left or right. */
  lemma {:induction false} FacesItsWay(s: State, step: int, random: nat -> (nat, nat), xres: int, yres: int,
                                       n: nat, qx: nat, qy: nat)
    requires Sent(s, step, xres, yres, qx, qy) && 0 < n && (n <= qx || n <= qy)
    ensures Marched(s, step, random, xres, yres, n).facing ==
            if n <= qy then (if s.yTogo > 0 then Up else Down) else (if s.xTogo > 0 then Left else Right)
  {
    MarchIsStraight(s, step, random, xres, yres, n - 1, qx, qy);
    var m := Marched(s, step, random, xres, yres, n - 1);
    FacingStep(s, m, step, random(n - 1).0, random(n - 1).1, xres, yres, n, qx, qy);
  }

  lemma {:induction false} FacingStep(s: State, m: State, step: int, rx: nat, ry: nat, xres: int, yres: int, n: nat, qx: nat, qy: nat)
    requires Sent(s, step, xres, yres, qx, qy) && n > 0 && (n <= qx || n <= qy) && Marching(s, m, step, n - 1, qx, qy)
    ensures Moved(m, step, rx, ry, xres, yres).facing ==
            if n <= qy then (if s.yTogo > 0 then Up else Down) else (if s.xTogo > 0 then Left else Right)
  {
    CutOnWay(s.x, s.xTogo, m.x, m.xTogo, step, n - 1, qx);
    CutOnWay(s.y, s.yTogo, m.y, m.yTogo, step, n - 1, qy);
    MovedFacing(m, step, rx, ry, xres, yres);
  }

  /** With steps left the distance keeps its sign, and is no less than a step. */
  lemma {:induction false} CutOnWay(at0: int, togo0: int, at: int, togo: int, step: int, n: nat, q: nat)
    requires step > 0 && Away(togo0, step, q) && OnWay(at0, togo0, at, togo, step, n, q)
    ensures n < q ==> if togo0 > 0 then Cut(togo, step) >= step else Cut(togo, step) <= -step
    ensures n >= q ==> Cut(togo, step) == 0
  {
    StepsGrow(0, q + 1, step);
    if n < q { StepsGrow(n, q, step); }
  }

  lemma {:induction false} MovedFacing(m: State, step: int, rx: nat, ry: nat, xres: int, yres: int)
    requires step > 0 && (Cut(m.xTogo, step) != 0 || Cut(m.yTogo, step) != 0)
    ensures var x, y := Cut(m.xTogo, step), Cut(m.yTogo, step);
      Moved(m, step, rx, ry, xres, yres).facing ==
        if y >= step then Up else if y < 0 then Down else if x >= step then Left else Right
  {
  }

  /** A walking penguin that is there gets an aim from -50 to 49 away on either axis, */
  lemma {:induction false} WalkersAim(s: State, step: int, rx: nat, ry: nat)
    requires s.moving && Abs(s.xTogo) < step && Abs(s.yTogo) < step
    ensures var r := Aimed(s, step, rx, ry);
      && -50 <= r.xTogo <= 49 && -50 <= r.yTogo <= 49
      && r == s.(xTogo := r.xTogo, yTogo := r.yTogo)
  {
  }

  /** and every such aim comes from some random numbers. */
  lemma {:induction false} EveryAim(s: State, step: int, x: int, y: int)
    requires s.moving && Abs(s.xTogo) < step && Abs(s.yTogo) < step && -50 <= x <= 49 && -50 <= y <= 49
    ensures Aimed(s, step, x + 50, y + 50) == s.(xTogo := x, yTogo := y)
  {
    assert (x + 50) % 100 - 50 == x && (y + 50) % 100 - 50 == y;
  }

  /** A penguin of a formation that is there moves by no more than one pixel, and looks down. */
  lemma {:induction false} FormationJitters(s: State, step: int, rx: nat, ry: nat, xres: int, yres: int)
    requires !s.moving && Abs(s.xTogo) < step && Abs(s.yTogo) < step
    requires 0 <= s.x <= xres - XSPRITESIZE && 0 <= s.y <= yres - YSPRITESIZE
    ensures var r := Moved(s, step, rx, ry, xres, yres);
      && Abs(r.x - s.x) <= 1 && Abs(r.y - s.y) <= 1 && r.facing == Down && r.xTogo == 0 && r.yTogo == 0
      && (0 < s.x < xres - XSPRITESIZE ==> (rx - (r.x - s.x)) % 3 == 1)
      && (0 < s.y < yres - YSPRITESIZE ==> (ry - (r.y - s.y)) % 3 == 1)
  {
  }

  /** On a screen with room for one, a penguin of 40 by 60 pixels is wholly on the screen after every move. */
  lemma {:induction false} StaysOnScreen(s: State, step: int, rx: nat, ry: nat, xres: int, yres: int)
    requires xres >= 40 && yres >= 60
    ensures var r := Moved(s, step, rx, ry, xres, yres); 0 <= r.x && r.x + 40 <= xres && 0 <= r.y && r.y + 60 <= yres
  {
    var w := WalkedY(WalkedX(Aimed(s, step, rx, ry), step), step);
    ClippedOnScreen(w, xres, yres);
  }

  lemma {:induction false} ClippedOnScreen(w: State, xres: int, yres: int)
    requires xres >= 40 && yres >= 60
    ensures var c := Clipped(w, xres, yres); 0 <= c.x && c.x + 40 <= xres && 0 <= c.y && c.y + 60 <= yres
    ensures 0 <= w.x && w.x + 40 <= xres && 0 <= w.y && w.y + 60 <= yres ==> Clipped(w, xres, yres) == w
  {
  }

  /** Only the ring of the frame that is drawn ever turns. */
  lemma {:induction false} DrawnRingTurns(s: State)
    ensures var r := Animated(s);
      && SpriteOf(r) == Sprite(s.facing, if s.delay == 0 then (FrameOf(s) + 1) % FRAMES else FrameOf(s), s.x, s.y)
      && (s.facing != Left ==> r.left == s.left) && (s.facing != Right ==> r.right == s.right)
      && (s.facing != Up ==> r.up == s.up) && (s.facing != Down ==> r.down == s.down)
  {
  }

  /** It starts in the middle of the screen, walking, and looks down. */
  lemma {:induction false} StartsInTheMiddle(xres: nat, yres: nat)
    ensures var s := Spawned(xres, yres);
      && 2 * s.x <= xres <= 2 * s.x + 1 && 2 * s.y <= yres <= 2 * s.y + 1
      && s.xTogo == s.yTogo == 0 && s.moving && s.facing == Down && s.delay == 5 && Turns(s) == 0
  {
  }

  function Turns(s: State): nat { s.left + s.right + s.up + s.down }

  /** From its start on, a penguin's rings turn once in six moves. */
  lemma {:induction false} TurnsEverySixth(s: State, step: int, random: nat -> (nat, nat), xres: int, yres: int,
                                           n: nat, turns: nat, rest: nat)
    requires s.delay == 5 && Turns(s) == 0 && n == 6 * turns + rest && rest < 6
    ensures var m := Marched(s, step, random, xres, yres, n);
      m.delay == 5 - rest && (Turns(m) - turns) % 9 == 0
  {
    var march := (i: nat) => Marched(s, step, random, xres, yres, i);
    forall i: nat | i < n ensures Turned(march(i), march(i + 1)) {
      MovedTurns(march(i), step, random(i).0, random(i).1, xres, yres);
    }
    Ticks(march, n, turns, rest);
  }

  lemma {:induction false} Ticks(march: nat -> State, n: nat, turns: nat, rest: nat)
    requires forall i: nat :: i < n ==> Turned(march(i), march(i + 1))
    requires march(0).delay == 5 && Turns(march(0)) == 0 && n == 6 * turns + rest && rest < 6
    ensures march(n).delay == 5 - rest && (Turns(march(n)) - turns) % FRAMES == 0
    decreases n
  {
    if n > 0 {
      assert Turned(march(n - 1), march(n));
      if rest > 0 {
        Ticks(march, n - 1, turns, rest - 1);
      } else {
        Ticks(march, n - 1, turns - 1, 5);
        NextTurn(Turns(march(n - 1)), Turns(march(n)), turns - 1);
      }
    }
  }

  /** A move counts the delay down, or turns a ring by one frame. */
  ghost predicate Turned(m: State, r: State)
  {
    if m.delay > 0 then r.delay == m.delay - 1 && Turns(r) == Turns(m)
    else r.delay == 5 && (Turns(r) - Turns(m) - 1) % FRAMES == 0
  }

  lemma {:induction false} NextTurn(a: nat, b: nat, c: nat)
    requires (a - c) % FRAMES == 0 && (b - a - 1) % FRAMES == 0
    ensures (b - (c + 1)) % FRAMES == 0
  {
  }

  lemma {:induction false} MovedTurns(m: State, step: int, rx: nat, ry: nat, xres: int, yres: int)
    ensures Turned(m, Moved(m, step, rx, ry, xres, yres))
  {
    var c := Clipped(WalkedY(WalkedX(Aimed(m, step, rx, ry), step), step), xres, yres);
    SameRings(m, step, rx, ry, xres, yres);
    RingTurns(c);
  }

  lemma {:induction false} SameRings(m: State, step: int, rx: nat, ry: nat, xres: int, yres: int)
    ensures var c := Clipped(WalkedY(WalkedX(Aimed(m, step, rx, ry), step), step), xres, yres);
      Turns(c) == Turns(m) && c.delay == m.delay
  {
  }

  lemma {:induction false} RingTurns(c: State)
    ensures Turned(c, Animated(c))
  {
    NextFrame(c.left);
    NextFrame(c.right);
    NextFrame(c.up);
    NextFrame(c.down);
  }

  lemma {:induction false} NextFrame(n: nat)
    ensures ((n + 1) % FRAMES - n - 1) % FRAMES == 0
  {
    assert (n + 1) % FRAMES - n - 1 == -FRAMES * ((n + 1) / FRAMES);
  }
}
