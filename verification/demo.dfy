// Recording and playing demos, as g_game.c does it from G_Ticker.
module Demo {
  import N = LockstepNode
  import opened DemoCodec

  const VERSION: Byte := 110
  const MAXPLAYERS := 4

  /** What G_BeginRecording writes. */
  datatype Settings = Settings(skill: Byte, episode: Byte, map_: Byte, deathmatch: Byte, respawnparm: Byte,
                               fastparm: Byte, nomonsters: Byte, consoleplayer: Byte, playeringame: seq<bool>)

  predicate ValidSettings(g: Settings) {
    |g.playeringame| == MAXPLAYERS
  }

  function Flag(b: bool): Byte { if b then 1 else 0 }

  function Header(g: Settings): (h: seq<Byte>)
    requires ValidSettings(g)
    ensures |h| == 13
  {
    var p := g.playeringame;
    [VERSION, g.skill, g.episode, g.map_, g.deathmatch, g.respawnparm, g.fastparm, g.nomonsters, g.consoleplayer,
     Flag(p[0]), Flag(p[1]), Flag(p[2]), Flag(p[3])]
  }

  /** A deathmatch of players 0 and 2 on map 7 of episode 1, at skill 3, seen by player 2. */
  lemma HeaderOf(g: Settings)
    requires g == Settings(3, 1, 7, 2, 0, 1, 0, 2, [true, false, true, false])
    ensures Header(g) == [110, 3, 1, 7, 2, 0, 1, 0, 2, 1, 0, 1, 0]
  {
  }

  /** Which byte of a header tells what, after the version. */
  lemma HeaderExact(g: Settings, h: Settings)
    requires ValidSettings(g) && ValidSettings(h)
    ensures Header(g)[0] == VERSION
    ensures Header(g)[1] == Header(h)[1] <==> g.skill == h.skill
    ensures Header(g)[2] == Header(h)[2] <==> g.episode == h.episode
    ensures Header(g)[3] == Header(h)[3] <==> g.map_ == h.map_
    ensures Header(g)[4] == Header(h)[4] <==> g.deathmatch == h.deathmatch
    ensures Header(g)[5] == Header(h)[5] <==> g.respawnparm == h.respawnparm
    ensures Header(g)[6] == Header(h)[6] <==> g.fastparm == h.fastparm
    ensures Header(g)[7] == Header(h)[7] <==> g.nomonsters == h.nomonsters
    ensures Header(g)[8] == Header(h)[8] <==> g.consoleplayer == h.consoleplayer
    ensures forall i :: 0 <= i < MAXPLAYERS ==> (Header(g)[9 + i] == Header(h)[9 + i] <==> g.playeringame[i] == h.playeringame[i])
  {
  }

  /** In-game players before player i. */
  function Rank(ingame: seq<bool>, i: nat): (r: nat)
    requires i <= |ingame|
    ensures r <= i
  {
    if i == 0 then 0 else Rank(ingame, i - 1) + if ingame[i - 1] then 1 else 0
  }

  lemma Written(all: seq<Byte>, was: seq<Byte>, b: seq<Byte>)
    requires all == was + b
    ensures all[..|was|] == was && all[|was|..] == b
  {
  }

  /** The commands of the first n players, those in the game, stand in the stream from
      `base` on. */
  ghost predicate Stands(ingame: seq<bool>, cmds: seq<Ticcmd>, stream: seq<Ticcmd>, base: nat, n: nat)
    requires n <= |ingame| == |cmds|
  {
    forall k: nat :: k < n && ingame[k] ==> StandsAt(cmds[k], stream, base + Rank(ingame, k))
  }

  ghost predicate StandsAt(c: Ticcmd, stream: seq<Ticcmd>, k: nat) {
    k < |stream| && stream[k] == c
  }

  /** c is d with the moves at place k of the stream. */
  ghost predicate Plays(d: Ticcmd, c: Ticcmd, stream: seq<Ticcmd>, k: nat) {
    k < |stream| && c == WithMoves(d, stream[k])
  }

  lemma StandsOneMore(ingame: seq<bool>, cmds: seq<Ticcmd>, c: Ticcmd, stream: seq<Ticcmd>, base: nat, i: nat)
    requires i < |ingame| == |cmds| && ingame[i] && Stands(ingame, cmds, stream, base, i)
    requires |stream| == base + Rank(ingame, i)
    ensures Stands(ingame, cmds[i := c], stream + [c], base, i + 1)
  {
  }

  /** Room enough, in bytes, for a number of tics. */
  function Room(ingame: seq<bool>, tics: nat): nat
    requires |ingame| == MAXPLAYERS
  {
    29 + 4 * Base(ingame, tics)
  }

  /** Commands in so many tics. */
  function Base(ingame: seq<bool>, tics: nat): nat
    requires |ingame| == MAXPLAYERS
  {
    if tics == 0 then 0 else Base(ingame, tics - 1) + Rank(ingame, MAXPLAYERS)
  }

  /** The player asks to stop, or a command begins like the marker. */
  ghost predicate Refused(ingame: seq<bool>, netcmds: seq<Ticcmd>, quit: bool)
    requires |ingame| == |netcmds|
  {
    quit || exists i :: 0 <= i < |netcmds| && ingame[i] && netcmds[i].forwardmove == -128
  }

  class Tape {
    var buffer: array<Byte>
    var demo_p: nat
    var demorecording: bool
    var demoplayback: bool
    var playeringame: seq<bool>
    /** I_Error does not return. */
    var halted: bool

    /** The header and the commands on the tape, and how many have been read. */
    ghost var header: seq<Byte>
    ghost var stream: seq<Ticcmd>
    ghost var played: nat

    constructor (buffer: array<Byte>)
      ensures this.buffer == buffer && !demorecording && !demoplayback && !halted
    {
      this.buffer := buffer;
      demo_p, demorecording, demoplayback, halted := 0, false, false, false;
      playeringame := [];
      header, stream, played := [], [], 0;
    }

    /** A demo file that was recorded. */
    constructor Load(file: array<Byte>, ghost header: seq<Byte>, ghost cs: seq<Ticcmd>)
      requires |header| == 13 && file[..] == header + EncodeAll(cs) + [DEMOMARKER] && forall c :: c in cs ==> OnTape(c)
      ensures buffer == file && !halted && this.header == header && stream == cs && Complete(13 + 4 * |cs|)
    {
      buffer := file;
      demo_p, demorecording, demoplayback, halted := 0, false, false, false;
      playeringame := [];
      this.header, stream, played := header, cs, 0;
      new;
      Written(file[..], header + EncodeAll(cs), [DEMOMARKER]);
      assert file[..13 + 4 * |cs|] == file[..][..13 + 4 * |cs|];
      assert file[13 + 4 * |cs|] == file[..][13 + 4 * |cs|];
    }

    /** The bytes of the tape so far. */
    ghost predicate Holds(n: nat)
      reads this, buffer
    {
      && |header| == 13 && n <= buffer.Length && buffer[..n] == header + EncodeAll(stream)
      && forall c :: c in stream ==> OnTape(c)
    }

    /** A recording with room for another command. */
    ghost predicate Recording()
      reads this, buffer
    {
      !halted && demorecording && !demoplayback && |playeringame| == MAXPLAYERS && demo_p + 4 <= buffer.Length && Holds(demo_p)
    }

    /** A tape that is complete, ended by its marker. */
    ghost predicate Complete(n: nat)
      reads this, buffer
    {
      Holds(n) && n < buffer.Length && buffer[n] == DEMOMARKER
    }

    ghost predicate Playing()
      reads this, buffer
    {
      && !halted && demoplayback && !demorecording && |playeringame| == MAXPLAYERS
      && Complete(13 + 4 * |stream|) && played <= |stream| && demo_p == 13 + 4 * played
    }

    /** G_BeginRecording, into a buffer for at least one command. */
    method BeginRecording(g: Settings)
      requires ValidSettings(g) && buffer.Length >= 17 && !halted && !demoplayback
      modifies this, buffer
      ensures Recording() && buffer == old(buffer) && header == Header(g) && stream == [] && playeringame == g.playeringame
      ensures demo_p == 13
    {
      demo_p := 0;
      PutBytes([VERSION, g.skill, g.episode, g.map_, g.deathmatch, g.respawnparm, g.fastparm, g.nomonsters, g.consoleplayer]);
      PutBytes(seq(MAXPLAYERS, i requires 0 <= i < MAXPLAYERS => Flag(g.playeringame[i])));
      demorecording, playeringame := true, g.playeringame;
      header, stream := Header(g), [];
      assert buffer[..demo_p] == Header(g) == Header(g) + EncodeAll([]);
    }

    /** Consecutive *demo_p++ = b. */
    method PutBytes(bs: seq<Byte>)
      requires demo_p + |bs| <= buffer.Length
      modifies this`demo_p, buffer
      ensures demo_p == old(demo_p) + |bs| && buffer[..demo_p] == old(buffer[..demo_p]) + bs
    {
      var i := 0;
      while i < |bs|
        invariant 0 <= i <= |bs| && demo_p == old(demo_p) + i
        invariant buffer[..demo_p] == old(buffer[..demo_p]) + bs[..i]
      {
        PutByte(bs[i]);
        i := i + 1;
      }
    }

    method PutByte(b: Byte)
      requires demo_p < buffer.Length
      modifies this`demo_p, buffer
      ensures demo_p == old(demo_p) + 1 && buffer[..demo_p] == old(buffer[..demo_p]) + [b]
      ensures forall k :: old(demo_p) < k < buffer.Length ==> buffer[k] == old(buffer[k])
    {
      buffer[demo_p] := b;
      demo_p := demo_p + 1;
    }

    /** G_CheckDemoStatus while recording: the marker, the file, and I_Error. */
    method EndRecording()
      requires demorecording && Holds(demo_p) && demo_p < buffer.Length
      modifies this`demo_p, this`demorecording, this`halted, buffer
      ensures halted && !demorecording && demo_p == old(demo_p) + 1 && Complete(old(demo_p))
    {
      PutByte(DEMOMARKER);
      demorecording, halted := false, true;
      assert buffer[..demo_p][..demo_p - 1] == buffer[..demo_p - 1];
    }

    /** G_WriteDemoTiccmd.  It goes on with the command that a player of the demo will see, or
        ends the recording: on request, for want of room, or because the command begins like
        the marker. */
    method WriteDemoTiccmd(cmd: Ticcmd, quit: bool) returns (cmd': Ticcmd)
      requires Recording() && InRange(cmd)
      modifies this`demo_p, this`demorecording, this`halted, this`stream, buffer
      ensures halted == (quit || old(demo_p) + 16 > buffer.Length || cmd.forwardmove == -128)
      ensures !halted ==> Recording() && cmd' == Quantised(cmd) && stream == old(stream) + [cmd']
      ensures halted ==> stream == old(stream) && demo_p == old(demo_p) + 1 <= buffer.Length && Complete(old(demo_p))
    {
      cmd' := cmd;
      if quit {
        EndRecording();
        return;
      }
      ghost var was := buffer[..demo_p];
      var start := demo_p;
      PutBytes([ToByte(cmd.forwardmove), ToByte(cmd.sidemove), AngleByte(cmd.angleturn), ToByte(cmd.buttons)]);
      assert buffer[..demo_p] == was + EncodeCmd(cmd);
      demo_p := demo_p - 4;
      Written(buffer[..start + 4], was, EncodeCmd(cmd));
      assert buffer[..demo_p] == buffer[..start + 4][..start] && buffer[demo_p..demo_p + 4] == buffer[..start + 4][start..];
      CmdRoundTrip(cmd, cmd);
      if demo_p + 16 > buffer.Length || buffer[demo_p] == DEMOMARKER {
        EndRecording();
        return;
      }
      cmd' := ReadBytes(cmd);
      QuantisedOnTape(cmd);
      EncodeMore(stream, cmd');
      stream := stream + [cmd'];
      assert buffer[..demo_p] == was + EncodeCmd(cmd');
    }

    /** The reading part of G_ReadDemoTiccmd. */
    method ReadBytes(cmd: Ticcmd) returns (cmd': Ticcmd)
      requires demo_p + 4 <= buffer.Length
      modifies this`demo_p
      ensures demo_p == old(demo_p) + 4 && cmd' == DecodeCmd(cmd, buffer[old(demo_p)..demo_p])
    {
      cmd' := cmd.(forwardmove := SignedChar(buffer[demo_p]), sidemove := SignedChar(buffer[demo_p + 1]),
                   angleturn := AngleOf(buffer[demo_p + 2]), buttons := buffer[demo_p + 3]);
      demo_p := demo_p + 4;
    }

    /** G_DoPlayDemo, of a tape that was recorded: the settings come back. */
    method DoPlayDemo(ghost g0: Settings) returns (g: Settings)
      requires Complete(13 + 4 * |stream|) && !halted && ValidSettings(g0) && header == Header(g0)
      modifies this
      ensures buffer == old(buffer) && g == g0 && header == old(header) && stream == old(stream)
      ensures Playing() && played == 0 && playeringame == g.playeringame
    {
      assert buffer[..13 + 4 * |stream|][..13] == header && buffer[..13] == buffer[..13 + 4 * |stream|][..13];
      g := ReadHeader(g0);
      demorecording, played := false, 0;
      demo_p, playeringame, demoplayback := 13, g.playeringame, true;
    }

    method ReadHeader(ghost g0: Settings) returns (g: Settings)
      requires buffer.Length >= 13 && ValidSettings(g0) && buffer[..13] == Header(g0)
      ensures g == g0
    {
      ghost var h := buffer[..13];
      assert forall k :: 0 <= k < 13 ==> buffer[k] == h[k];
      assert buffer[0] == VERSION;
      g := Settings(buffer[1], buffer[2], buffer[3], buffer[4], buffer[5], buffer[6], buffer[7], buffer[8],
                    [buffer[9] != 0, buffer[10] != 0, buffer[11] != 0, buffer[12] != 0]);
      assert g.playeringame == g0.playeringame;
    }

    /** G_ReadDemoTiccmd while playing. */
    method ReadDemoTiccmd(cmd: Ticcmd) returns (cmd': Ticcmd)
      requires Playing()
      modifies this`demo_p, this`demoplayback, this`playeringame, this`played
      ensures if old(played) < |stream|
              then Playing() && played == old(played) + 1 && cmd' == WithMoves(cmd, stream[old(played)]) && playeringame == old(playeringame)
              else !demoplayback && cmd' == cmd && playeringame == [old(playeringame[0]), false, false, false]
    {
      cmd' := cmd;
      ghost var n := 13 + 4 * |stream|;
      if played < |stream| {
        assert stream[played] in stream;
        EncodedAt(stream, played);
        CmdRoundTrip(stream[played], cmd);
        SliceWithin(buffer[..], demo_p, n);
        assert buffer[demo_p..demo_p + 4] == buffer[..][demo_p..demo_p + 4];
        assert buffer[demo_p..demo_p + 4] == EncodeCmd(stream[played]);
        assert buffer[demo_p] == buffer[demo_p..demo_p + 4][0];
      }
      if buffer[demo_p] == DEMOMARKER {
        demoplayback := false;
        playeringame := [playeringame[0], false, false, false];
        return;
      }
      cmd' := ReadBytes(cmd);
      played := played + 1;
    }

    /** Stopped by an error, with the file complete. */
    ghost predicate Stopped()
      reads this, buffer
    {
      halted && 0 < demo_p <= buffer.Length && Complete(demo_p - 1)
    }

    /** The first i players have had their command of this tic. */
    ghost predicate InTic(netcmds: seq<Ticcmd>, cmds: seq<Ticcmd>, base: nat, i: nat)
      reads this, buffer
    {
      && Recording() && i <= MAXPLAYERS && |netcmds| == |cmds| == MAXPLAYERS
      && |stream| == base + Rank(playeringame, i) && Stands(playeringame, cmds, stream, base, i)
      && forall k :: 0 <= k < MAXPLAYERS ==>
           cmds[k] == if k < i && playeringame[k] then Quantised(netcmds[k]) else netcmds[k]
    }

    method RecordPlayer(netcmds: seq<Ticcmd>, cmds: seq<Ticcmd>, ghost base: nat, i: nat, quit: bool) returns (cmds': seq<Ticcmd>)
      requires i < MAXPLAYERS && InTic(netcmds, cmds, base, i) && playeringame[i] && InRange(netcmds[i])
      modifies this`demo_p, this`demorecording, this`halted, this`stream, buffer
      ensures |cmds'| == MAXPLAYERS && old(stream) <= stream
      ensures halted ==> Refused(playeringame, netcmds, quit) || buffer.Length < 29 + 4 * (base + Rank(playeringame, MAXPLAYERS))
      ensures Stopped() || (!halted && InTic(netcmds, cmds', base, i + 1))
    {
      ghost var stream0 := stream;
      RankRises(playeringame, i, MAXPLAYERS);
      var cmd := WriteDemoTiccmd(cmds[i], quit);
      cmds' := cmds[i := cmd];
      if !halted { StandsOneMore(playeringame, cmds, cmd, stream0, base, i); }
    }

    /** The commands of one tic in G_Ticker, while recording. */
    method RecordTic(netcmds: seq<Ticcmd>, quit: bool) returns (cmds: seq<Ticcmd>)
      requires Recording() && |netcmds| == MAXPLAYERS && forall c :: c in netcmds ==> InRange(c)
      modifies this`demo_p, this`demorecording, this`halted, this`stream, buffer
      ensures |cmds| == MAXPLAYERS && old(stream) <= stream
      ensures halted ==> Refused(playeringame, netcmds, quit) || buffer.Length < 29 + 4 * (|old(stream)| + Rank(playeringame, MAXPLAYERS))
      ensures Stopped() || (!halted && InTic(netcmds, cmds, |old(stream)|, MAXPLAYERS))
    {
      cmds := netcmds;
      var i := 0;
      while i < MAXPLAYERS && !halted
        invariant 0 <= i <= MAXPLAYERS && |cmds| == MAXPLAYERS && old(stream) <= stream
        invariant Stopped() || (!halted && InTic(netcmds, cmds, |old(stream)|, i))
        invariant halted ==> Refused(playeringame, netcmds, quit) || buffer.Length < 29 + 4 * (|old(stream)| + Rank(playeringame, MAXPLAYERS))
      {
        if playeringame[i] { cmds := RecordPlayer(netcmds, cmds, |old(stream)|, i, quit); }
        i := i + 1;
      }
    }

    /** A session, until it is stopped or ends. */
    method RecordTics(tics: seq<seq<Ticcmd>>, quits: seq<bool>) returns (recorded: seq<seq<Ticcmd>>)
      requires Recording() && stream == [] && |quits| == |tics|
      requires forall t :: 0 <= t < |tics| ==> |tics[t]| == MAXPLAYERS && forall c :: c in tics[t] ==> InRange(c)
      modifies this`demo_p, this`demorecording, this`halted, this`stream, buffer
      ensures Stopped() && |recorded| <= |tics| && Base(playeringame, |recorded|) <= |stream|
      ensures |playeringame| == MAXPLAYERS && forall t: nat :: t < |recorded| ==> LaidOut(playeringame, recorded, stream, t)
      ensures forall t: nat :: t < |recorded| ==> AsRecorded(playeringame, tics[t], recorded[t])
      ensures |recorded| < |tics| ==>
        Refused(playeringame, tics[|recorded|], quits[|recorded|]) || buffer.Length < Room(playeringame, |recorded| + 1)
    {
      recorded := [];
      while |recorded| < |tics| && !halted
        invariant |recorded| <= |tics| && Base(playeringame, |recorded|) <= |stream|
        invariant Stopped() || (Recording() && |stream| == Base(playeringame, |recorded|))
        invariant forall t: nat :: t < |recorded| ==> LaidOut(playeringame, recorded, stream, t)
        invariant forall t: nat :: t < |recorded| ==> AsRecorded(playeringame, tics[t], recorded[t])
        invariant halted ==> |recorded| < |tics|
        invariant halted ==> Refused(playeringame, tics[|recorded|], quits[|recorded|]) || buffer.Length < Room(playeringame, |recorded| + 1)
        decreases |tics| - |recorded|, !halted
      {
        recorded := AddTic(tics[|recorded|], quits[|recorded|], recorded);
      }
      if !halted { EndRecording(); }
    }

    method AddTic(tic: seq<Ticcmd>, quit: bool, recorded: seq<seq<Ticcmd>>) returns (recorded': seq<seq<Ticcmd>>)
      requires Recording() && |stream| == Base(playeringame, |recorded|)
      requires |tic| == MAXPLAYERS && forall c :: c in tic ==> InRange(c)
      requires forall t: nat :: t < |recorded| ==> LaidOut(playeringame, recorded, stream, t)
      modifies this`demo_p, this`demorecording, this`halted, this`stream, buffer
      ensures Base(playeringame, |recorded'|) <= |stream|
      ensures halted ==> Refused(playeringame, tic, quit) || buffer.Length < Room(playeringame, |recorded| + 1)
      ensures if halted then Stopped() && recorded' == recorded
              else Recording() && |stream| == Base(playeringame, |recorded'|)
                   && |recorded'| == |recorded| + 1 && recorded <= recorded' && AsRecorded(playeringame, tic, recorded'[|recorded|])
      ensures forall t: nat :: t < |recorded'| ==> LaidOut(playeringame, recorded', stream, t)
    {
      ghost var was := stream;
      var cmds := RecordTic(tic, quit);
      LaidOutLater(playeringame, recorded, was, stream);
      if halted {
        recorded' := recorded;
      } else {
        LaidOutMore(playeringame, recorded, cmds, was, stream);
        recorded' := recorded + [cmds];
      }
    }

    /** The commands of one tic in G_Ticker, while playing. */
    method PlayTic(netcmds: seq<Ticcmd>) returns (cmds: seq<Ticcmd>)
      requires Playing() && |netcmds| == MAXPLAYERS && played + Rank(playeringame, MAXPLAYERS) <= |stream|
      modifies this`demo_p, this`demoplayback, this`playeringame, this`played
      ensures |cmds| == MAXPLAYERS && Playing() && playeringame == old(playeringame)
      ensures played == old(played) + Rank(playeringame, MAXPLAYERS)
      ensures forall i: nat :: i < MAXPLAYERS && playeringame[i] ==>
        Plays(netcmds[i], cmds[i], stream, old(played) + Rank(playeringame, i))
    {
      cmds := netcmds;
      var i := 0;
      ghost var ingame := playeringame;
      while i < MAXPLAYERS
        invariant 0 <= i <= MAXPLAYERS && |cmds| == MAXPLAYERS && Playing() && playeringame == ingame
        invariant played == old(played) + Rank(ingame, i)
        invariant forall k :: i <= k < MAXPLAYERS ==> cmds[k] == netcmds[k]
        invariant forall k: nat :: k < i && ingame[k] ==> Plays(netcmds[k], cmds[k], stream, old(played) + Rank(ingame, k))
      {
        if playeringame[i] {
          RankRises(ingame, i + 1, MAXPLAYERS);
          var cmd := ReadDemoTiccmd(cmds[i]);
          assert Plays(netcmds[i], cmd, stream, old(played) + Rank(ingame, i));
          cmds := cmds[i := cmd];
        }
        assert Rank(ingame, i + 1) == Rank(ingame, i) + if ingame[i] then 1 else 0;
        i := i + 1;
      }
    }

    /** One tic of a session that is played back. */
    method PlayRecorded(others: seq<Ticcmd>, ghost recorded: seq<Ticcmd>) returns (cmds: seq<Ticcmd>)
      requires Playing() && played + Rank(playeringame, MAXPLAYERS) <= |stream|
      requires |others| == |recorded| == MAXPLAYERS && Stands(playeringame, recorded, stream, played, MAXPLAYERS)
      modifies this`demo_p, this`demoplayback, this`playeringame, this`played
      ensures |cmds| == MAXPLAYERS && Playing() && playeringame == old(playeringame)
      ensures played == old(played) + Rank(playeringame, MAXPLAYERS)
      ensures forall i: nat :: i < MAXPLAYERS && playeringame[i] ==> cmds[i] == WithMoves(others[i], recorded[i])
    {
      cmds := PlayTic(others);
      SeenAsRecorded(playeringame, recorded, others, cmds, stream, old(played));
    }

    /** A whole session that is played back. */
    method PlayTics(ghost recorded: seq<seq<Ticcmd>>, others: seq<seq<Ticcmd>>, count: nat) returns (seen: seq<seq<Ticcmd>>)
      requires Playing() && played == 0 && count == |recorded| <= |others| && Base(playeringame, count) <= |stream|
      requires forall t :: 0 <= t < |others| ==> |others[t]| == MAXPLAYERS
      requires forall t: nat :: t < |recorded| ==> LaidOut(playeringame, recorded, stream, t)
      modifies this`demo_p, this`demoplayback, this`playeringame, this`played
      ensures playeringame == old(playeringame) && |seen| == count
      ensures |playeringame| == MAXPLAYERS && forall t: nat :: t < count ==> AsReplayed(playeringame, others[t], recorded[t], seen[t])
    {
      seen := [];
      while |seen| < count
        invariant |seen| <= count && Playing() && playeringame == old(playeringame) && played == Base(playeringame, |seen|)
        invariant forall t: nat :: t < |seen| ==> AsReplayed(playeringame, others[t], recorded[t], seen[t])
      {
        BaseRises(playeringame, |seen| + 1, count);
        assert LaidOut(playeringame, recorded, stream, |seen|);
        var cmds := PlayRecorded(others[|seen|], recorded[|seen|]);
        seen := seen + [cmds];
      }
    }
  }

  lemma SliceWithin(b: seq<Byte>, i: nat, n: nat)
    requires i + 4 <= n <= |b|
    ensures b[..n][i..i + 4] == b[i..i + 4]
  {
  }

  lemma {:induction false} RankRises(ingame: seq<bool>, i: nat, j: nat)
    requires i <= j <= |ingame|
    ensures Rank(ingame, i) <= Rank(ingame, j)
  {
    if i < j { RankRises(ingame, i, j - 1); }
  }

  /** What the recording session goes on with: the commands of players in the game, their
      angles quantised. */
  ghost predicate AsRecorded(ingame: seq<bool>, tic: seq<Ticcmd>, recorded: seq<Ticcmd>) {
    && |ingame| == |tic| == |recorded| == MAXPLAYERS
    && forall i :: 0 <= i < MAXPLAYERS && ingame[i] ==> recorded[i] == Quantised(tic[i])
  }

  /** What a player of the demo sees: the moves that were recorded. */
  ghost predicate AsReplayed(ingame: seq<bool>, others: seq<Ticcmd>, recorded: seq<Ticcmd>, seen: seq<Ticcmd>) {
    && |ingame| == |others| == |recorded| == |seen| == MAXPLAYERS
    && forall i :: 0 <= i < MAXPLAYERS && ingame[i] ==> seen[i] == WithMoves(others[i], recorded[i])
  }

  /** Tic t of a session stands from place Base(ingame, t) on. */
  ghost predicate LaidOut(ingame: seq<bool>, tics: seq<seq<Ticcmd>>, stream: seq<Ticcmd>, t: nat)
    requires |ingame| == MAXPLAYERS && t < |tics|
  {
    |tics[t]| == MAXPLAYERS && Stands(ingame, tics[t], stream, Base(ingame, t), MAXPLAYERS)
  }

  lemma StandsLater(ingame: seq<bool>, cmds: seq<Ticcmd>, was: seq<Ticcmd>, now: seq<Ticcmd>, base: nat)
    requires |ingame| == |cmds| == MAXPLAYERS && was <= now && Stands(ingame, cmds, was, base, MAXPLAYERS)
    ensures Stands(ingame, cmds, now, base, MAXPLAYERS)
  {
    forall k: nat | k < MAXPLAYERS && ingame[k] ensures StandsAt(cmds[k], now, base + Rank(ingame, k)) {
      assert StandsAt(cmds[k], was, base + Rank(ingame, k));
    }
  }

  lemma LaidOutLater(ingame: seq<bool>, tics: seq<seq<Ticcmd>>, was: seq<Ticcmd>, now: seq<Ticcmd>)
    requires |ingame| == MAXPLAYERS && was <= now && forall t: nat :: t < |tics| ==> LaidOut(ingame, tics, was, t)
    ensures forall t: nat :: t < |tics| ==> LaidOut(ingame, tics, now, t)
  {
    forall t: nat | t < |tics| ensures LaidOut(ingame, tics, now, t) {
      assert LaidOut(ingame, tics, was, t);
      StandsLater(ingame, tics[t], was, now, Base(ingame, t));
    }
  }

  lemma LaidOutMore(ingame: seq<bool>, tics: seq<seq<Ticcmd>>, cmds: seq<Ticcmd>, was: seq<Ticcmd>, now: seq<Ticcmd>)
    requires |ingame| == |cmds| == MAXPLAYERS && was <= now && |was| == Base(ingame, |tics|)
    requires forall t: nat :: t < |tics| ==> LaidOut(ingame, tics, now, t)
    requires Stands(ingame, cmds, now, |was|, MAXPLAYERS)
    ensures forall t: nat :: t < |tics| + 1 ==> LaidOut(ingame, tics + [cmds], now, t)
  {
    forall t: nat | t < |tics| + 1 ensures LaidOut(ingame, tics + [cmds], now, t) {
      if t < |tics| { assert LaidOut(ingame, tics, now, t); }
    }
  }

  /** Playing a demo file for as many tics as were recorded. */
  method Replay(file: array<Byte>, ghost g: Settings, ghost header: seq<Byte>, ghost stream: seq<Ticcmd>, ghost recorded: seq<seq<Ticcmd>>,
                others: seq<seq<Ticcmd>>, count: nat)
    returns (seen: seq<seq<Ticcmd>>)
    requires ValidSettings(g) && header == Header(g) && file[..] == header + EncodeAll(stream) + [DEMOMARKER]
    requires forall c :: c in stream ==> OnTape(c)
    requires count == |recorded| <= |others| && Base(g.playeringame, count) <= |stream|
    requires forall t :: 0 <= t < |others| ==> |others[t]| == MAXPLAYERS
    requires forall t: nat :: t < |recorded| ==> LaidOut(g.playeringame, recorded, stream, t)
    ensures |seen| == count && forall t: nat :: t < count ==> AsReplayed(g.playeringame, others[t], recorded[t], seen[t])
  {
    var p := new Tape.Load(file, header, stream);
    var settings := p.DoPlayDemo(g);
    seen := p.PlayTics(recorded, others, count);
  }

  lemma SeenAsRecorded(ingame: seq<bool>, recorded: seq<Ticcmd>, others: seq<Ticcmd>, cmds: seq<Ticcmd>, stream: seq<Ticcmd>, base: nat)
    requires |ingame| == |recorded| == |others| == |cmds| == MAXPLAYERS && Stands(ingame, recorded, stream, base, MAXPLAYERS)
    requires forall i: nat :: i < MAXPLAYERS && ingame[i] ==> Plays(others[i], cmds[i], stream, base + Rank(ingame, i))
    ensures forall i: nat :: i < MAXPLAYERS && ingame[i] ==> cmds[i] == WithMoves(others[i], recorded[i])
  {
    forall i: nat | i < MAXPLAYERS && ingame[i] ensures cmds[i] == WithMoves(others[i], recorded[i]) {
      assert StandsAt(recorded[i], stream, base + Rank(ingame, i));
    }
  }

  lemma {:induction false} BaseRises(ingame: seq<bool>, t: nat, count: nat)
    requires |ingame| == MAXPLAYERS && t <= count
    ensures Base(ingame, t) <= Base(ingame, count)
  {
    if t < count { BaseRises(ingame, t, count - 1); }
  }

  /** Recording a session and playing the file back.  In every tic that was recorded as a
      whole, every player in the game gets exactly the moves that the recording session
      went on with, whatever else is in the commands. */
  method RecordAndReplay(g: Settings, maxsize: nat, tics: seq<seq<Ticcmd>>, quits: seq<bool>, others: seq<seq<Ticcmd>>)
    returns (recorded: seq<seq<Ticcmd>>, seen: seq<seq<Ticcmd>>)
    requires ValidSettings(g) && maxsize >= 17 && |quits| == |others| == |tics|
    requires forall t :: 0 <= t < |tics| ==> |tics[t]| == |others[t]| == MAXPLAYERS && forall c :: c in tics[t] ==> InRange(c)
    ensures |seen| == |recorded| <= |tics|
    ensures forall t: nat :: t < |seen| ==> AsRecorded(g.playeringame, tics[t], recorded[t])
    ensures |recorded| < |tics| ==>
      Refused(g.playeringame, tics[|recorded|], quits[|recorded|]) || maxsize < Room(g.playeringame, |recorded| + 1)
    ensures forall t: nat :: t < |seen| ==> AsReplayed(g.playeringame, others[t], recorded[t], seen[t])
  {
    var buffer := new Byte[maxsize](_ => 0);
    var r := new Tape(buffer);
    r.BeginRecording(g);
    ghost var header := r.header;
    recorded := r.RecordTics(tics, quits);
    var file := new Byte[r.demo_p](i requires 0 <= i < r.demo_p <= buffer.Length reads r, buffer => buffer[i]);
    FileIs(file[..], buffer[..], r.demo_p, header + EncodeAll(r.stream));
    seen := Replay(file, g, header, r.stream, recorded, others, |recorded|);
  }

  lemma FileIs(file: seq<Byte>, buffer: seq<Byte>, n: nat, body: seq<Byte>)
    requires |file| == n <= |buffer| && n > 0 && (forall k :: 0 <= k < n ==> file[k] == buffer[k])
    requires buffer[..n - 1] == body && buffer[n - 1] == DEMOMARKER
    ensures file == body + [DEMOMARKER]
  {
    assert file[..n - 1] == buffer[..n - 1];
  }
}
