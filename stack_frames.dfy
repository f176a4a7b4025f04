/**
  Stack-frame sizes shared by the three assemblers.

  A frame holds, from the top of the caller's frame down, the parameters,
  the return address, the locals kept on the stack and the temporaries.
  Each assembler aligns the part below the parameters to its own power of
  two (8 bytes on TriCore, 16 on AArch64 and x86-64) and refuses a request
  that would drop the return address or, unless allowed, live locals.
*/
module StackFrames {
  import opened UInt
  import M = ModuleInfos

  /**
    `alignStackFrameSize`: the part of the frame below the parameters is
    rounded up to a multiple of 2^p, all in `uint32_t`.
  */
  function AlignFrame(frameSize: u32, paramWidth: u32, p: nat): (r: u32)
    requires p < 32
    ensures Wrap32(r - paramWidth) % Pow2(p) == 0
  {
    var below := RoundUpToPow2(Wrap32(frameSize - paramWidth), p);
    WrapBack(below, paramWidth);
    Wrap32(below + paramWidth)
  }

  lemma {:induction false} WrapBack(x: u32, w: u32)
    ensures Wrap32(Wrap32(x + w) - w) == x
  {
    if x + w >= TWO32 {
      DivModUnique(x + w, TWO32, 1, x + w - TWO32);
      DivModUnique(x + w - TWO32 - w, TWO32, -1, x);
    } else {
      DivModUnique(x + w, TWO32, 0, x + w);
      DivModUnique(x, TWO32, 0, x);
    }
  }

  /**
    Without wrap-around, the aligned size is the least size at or above the
    request whose part below the parameters is a multiple of 2^p.
  */
  lemma {:induction false} AlignFrameLeast(frameSize: u32, paramWidth: u32, p: nat)
    requires p < 32 && paramWidth <= frameSize && frameSize + Pow2(p) <= TWO32
    ensures var r := AlignFrame(frameSize, paramWidth, p);
            forall j: nat :: frameSize - paramWidth <= j && j % Pow2(p) == 0 ==> r <= paramWidth + j
  {
    var v := frameSize - paramWidth;
    AlignFrameBounds(frameSize, paramWidth, p);
    forall j: nat | v <= j && j % Pow2(p) == 0 ensures RoundUpToPow2(v, p) <= j {
      RoundUpLeast(v, p, j);
    }
  }

  /** Without wrap-around the aligned size is the request's part below the parameters rounded up, plus the parameters. */
  lemma {:induction false} AlignFrameBounds(frameSize: u32, paramWidth: u32, p: nat)
    requires p < 32 && paramWidth <= frameSize && frameSize + Pow2(p) <= TWO32
    ensures AlignFrame(frameSize, paramWidth, p) == RoundUpToPow2(frameSize - paramWidth, p) + paramWidth
    ensures var r := AlignFrame(frameSize, paramWidth, p);
            frameSize <= r < frameSize + Pow2(p) && (r - paramWidth) % Pow2(p) == 0
  {
    var v := frameSize - paramWidth;
    DivModUnique(v, TWO32, 0, v);
    assert Wrap32(frameSize - paramWidth) == v;
    var below := RoundUpToPow2(v, p);
    assert v <= below < v + Pow2(p);
    DivModUnique(below + paramWidth, TWO32, 0, below + paramWidth);
  }

  /** Aligning an aligned size changes nothing. */
  lemma {:induction false} AlignFrameIdempotent(frameSize: u32, paramWidth: u32, p: nat)
    requires p < 32
    ensures AlignFrame(AlignFrame(frameSize, paramWidth, p), paramWidth, p) == AlignFrame(frameSize, paramWidth, p)
  {
    var below := RoundUpToPow2(Wrap32(frameSize - paramWidth), p);
    var r := AlignFrame(frameSize, paramWidth, p);
    assert r == Wrap32(below + paramWidth);
    WrapBack(below, paramWidth);
    assert RoundUpToPow2(Wrap32(r - paramWidth), p) == below;
    assert AlignFrame(r, paramWidth, p) == Wrap32(RoundUpToPow2(Wrap32(r - paramWidth), p) + paramWidth);
  }

  /**
    `alignStackFrameSize` of the AArch64 and x86-64 assemblers: the part
    below the parameters in 16-byte steps; without wrap-around the least
    such size at or above the request, and aligning again changes nothing.
  */
  function AlignStackFrameSize16(frameSize: u32, paramWidth: u32): (r: u32)
    ensures Wrap32(r - paramWidth) % 16 == 0
    ensures paramWidth <= frameSize && frameSize + 16 <= TWO32 ==>
              frameSize <= r < frameSize + 16 && (r - paramWidth) % 16 == 0
    ensures AlignFrame(r, paramWidth, 4) == r
  {
    AlignedFacts(frameSize, paramWidth, 4, 16);
    AlignFrame(frameSize, paramWidth, 4)
  }

  /** What the alignment functions promise, with m = 2^p. */
  lemma {:induction false} AlignedFacts(frameSize: u32, paramWidth: u32, p: nat, m: nat)
    requires p < 32 && m == Pow2(p)
    ensures var r := AlignFrame(frameSize, paramWidth, p);
            Wrap32(r - paramWidth) % m == 0 && AlignFrame(r, paramWidth, p) == r
            && (paramWidth <= frameSize && frameSize + m <= TWO32 ==>
                  frameSize <= r < frameSize + m && (r - paramWidth) % m == 0)
  {
    AlignFrameIdempotent(frameSize, paramWidth, p);
    if paramWidth <= frameSize && frameSize + m <= TWO32 {
      AlignFrameBounds(frameSize, paramWidth, p);
    }
  }

  /**
    The assertions every `setStackFrameSize` makes of its request: the size
    is the frame just before a return or an aligned size, it keeps the
    parameters and the return address, and it keeps the locals unless the
    caller allows dropping them.
  */
  predicate ValidFrameRequest(abi: M.WasmAbi, fnc: M.FunctionInfo, frameSize: u32, aligned: u32,
                              mayRemoveLocals: bool)
  {
    && (frameSize == M.GetStackFrameSizeBeforeReturn(abi, fnc) || frameSize == aligned)
    && frameSize >= M.GetStackFrameSizeBeforeReturn(abi, fnc)
    && (!mayRemoveLocals ==> frameSize >= M.GetFixedStackFrameWidth(abi, fnc))
  }
}
