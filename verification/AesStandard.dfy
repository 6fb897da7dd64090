/** The S-box of FIPS 197, as the last encryption and decryption tables of src/lib/aes.c hold it,
    and the standard's own example. */
module AesStandard {
  import opened Words
  import opened AesSpec
  import opened Aes

  // --------------------------------------------------------------------------- the S-box

  /** SubBytes (figure 7 of the standard), by the bits of the byte */
  function SubValue(b: bv8): bv8 {
    if b & 0x80 == 0 then
      if b & 0x40 == 0 then
        if b & 0x20 == 0 then
          if b & 0x10 == 0 then
            if b & 0x08 == 0 then
              if b & 0x04 == 0 then
                if b & 2 == 0 then (if b & 1 == 0 then 0x63 else 0x7C) else (if b & 1 == 0 then 0x77 else 0x7B)
              else
                if b & 2 == 0 then (if b & 1 == 0 then 0xF2 else 0x6B) else (if b & 1 == 0 then 0x6F else 0xC5)
            else
              if b & 0x04 == 0 then
                if b & 2 == 0 then (if b & 1 == 0 then 0x30 else 0x01) else (if b & 1 == 0 then 0x67 else 0x2B)
              else
                if b & 2 == 0 then (if b & 1 == 0 then 0xFE else 0xD7) else (if b & 1 == 0 then 0xAB else 0x76)
          else
            if b & 0x08 == 0 then
              if b & 0x04 == 0 then
                if b & 2 == 0 then (if b & 1 == 0 then 0xCA else 0x82) else (if b & 1 == 0 then 0xC9 else 0x7D)
              else
                if b & 2 == 0 then (if b & 1 == 0 then 0xFA else 0x59) else (if b & 1 == 0 then 0x47 else 0xF0)
            else
              if b & 0x04 == 0 then
                if b & 2 == 0 then (if b & 1 == 0 then 0xAD else 0xD4) else (if b & 1 == 0 then 0xA2 else 0xAF)
              else
                if b & 2 == 0 then (if b & 1 == 0 then 0x9C else 0xA4) else (if b & 1 == 0 then 0x72 else 0xC0)
        else
          if b & 0x10 == 0 then
            if b & 0x08 == 0 then
              if b & 0x04 == 0 then
                if b & 2 == 0 then (if b & 1 == 0 then 0xB7 else 0xFD) else (if b & 1 == 0 then 0x93 else 0x26)
              else
                if b & 2 == 0 then (if b & 1 == 0 then 0x36 else 0x3F) else (if b & 1 == 0 then 0xF7 else 0xCC)
            else
              if b & 0x04 == 0 then
                if b & 2 == 0 then (if b & 1 == 0 then 0x34 else 0xA5) else (if b & 1 == 0 then 0xE5 else 0xF1)
              else
                if b & 2 == 0 then (if b & 1 == 0 then 0x71 else 0xD8) else (if b & 1 == 0 then 0x31 else 0x15)
          else
            if b & 0x08 == 0 then
              if b & 0x04 == 0 then
                if b & 2 == 0 then (if b & 1 == 0 then 0x04 else 0xC7) else (if b & 1 == 0 then 0x23 else 0xC3)
              else
                if b & 2 == 0 then (if b & 1 == 0 then 0x18 else 0x96) else (if b & 1 == 0 then 0x05 else 0x9A)
            else
              if b & 0x04 == 0 then
                if b & 2 == 0 then (if b & 1 == 0 then 0x07 else 0x12) else (if b & 1 == 0 then 0x80 else 0xE2)
              else
                if b & 2 == 0 then (if b & 1 == 0 then 0xEB else 0x27) else (if b & 1 == 0 then 0xB2 else 0x75)
      else
        if b & 0x20 == 0 then
          if b & 0x10 == 0 then
            if b & 0x08 == 0 then
              if b & 0x04 == 0 then
                if b & 2 == 0 then (if b & 1 == 0 then 0x09 else 0x83) else (if b & 1 == 0 then 0x2C else 0x1A)
              else
                if b & 2 == 0 then (if b & 1 == 0 then 0x1B else 0x6E) else (if b & 1 == 0 then 0x5A else 0xA0)
            else
              if b & 0x04 == 0 then
                if b & 2 == 0 then (if b & 1 == 0 then 0x52 else 0x3B) else (if b & 1 == 0 then 0xD6 else 0xB3)
              else
                if b & 2 == 0 then (if b & 1 == 0 then 0x29 else 0xE3) else (if b & 1 == 0 then 0x2F else 0x84)
          else
            if b & 0x08 == 0 then
              if b & 0x04 == 0 then
                if b & 2 == 0 then (if b & 1 == 0 then 0x53 else 0xD1) else (if b & 1 == 0 then 0x00 else 0xED)
              else
                if b & 2 == 0 then (if b & 1 == 0 then 0x20 else 0xFC) else (if b & 1 == 0 then 0xB1 else 0x5B)
            else
              if b & 0x04 == 0 then
                if b & 2 == 0 then (if b & 1 == 0 then 0x6A else 0xCB) else (if b & 1 == 0 then 0xBE else 0x39)
              else
                if b & 2 == 0 then (if b & 1 == 0 then 0x4A else 0x4C) else (if b & 1 == 0 then 0x58 else 0xCF)
        else
          if b & 0x10 == 0 then
            if b & 0x08 == 0 then
              if b & 0x04 == 0 then
                if b & 2 == 0 then (if b & 1 == 0 then 0xD0 else 0xEF) else (if b & 1 == 0 then 0xAA else 0xFB)
              else
                if b & 2 == 0 then (if b & 1 == 0 then 0x43 else 0x4D) else (if b & 1 == 0 then 0x33 else 0x85)
            else
              if b & 0x04 == 0 then
                if b & 2 == 0 then (if b & 1 == 0 then 0x45 else 0xF9) else (if b & 1 == 0 then 0x02 else 0x7F)
              else
                if b & 2 == 0 then (if b & 1 == 0 then 0x50 else 0x3C) else (if b & 1 == 0 then 0x9F else 0xA8)
          else
            if b & 0x08 == 0 then
              if b & 0x04 == 0 then
                if b & 2 == 0 then (if b & 1 == 0 then 0x51 else 0xA3) else (if b & 1 == 0 then 0x40 else 0x8F)
              else
                if b & 2 == 0 then (if b & 1 == 0 then 0x92 else 0x9D) else (if b & 1 == 0 then 0x38 else 0xF5)
            else
              if b & 0x04 == 0 then
                if b & 2 == 0 then (if b & 1 == 0 then 0xBC else 0xB6) else (if b & 1 == 0 then 0xDA else 0x21)
              else
                if b & 2 == 0 then (if b & 1 == 0 then 0x10 else 0xFF) else (if b & 1 == 0 then 0xF3 else 0xD2)
    else
      if b & 0x40 == 0 then
        if b & 0x20 == 0 then
          if b & 0x10 == 0 then
            if b & 0x08 == 0 then
              if b & 0x04 == 0 then
                if b & 2 == 0 then (if b & 1 == 0 then 0xCD else 0x0C) else (if b & 1 == 0 then 0x13 else 0xEC)
              else
                if b & 2 == 0 then (if b & 1 == 0 then 0x5F else 0x97) else (if b & 1 == 0 then 0x44 else 0x17)
            else
              if b & 0x04 == 0 then
                if b & 2 == 0 then (if b & 1 == 0 then 0xC4 else 0xA7) else (if b & 1 == 0 then 0x7E else 0x3D)
              else
                if b & 2 == 0 then (if b & 1 == 0 then 0x64 else 0x5D) else (if b & 1 == 0 then 0x19 else 0x73)
          else
            if b & 0x08 == 0 then
              if b & 0x04 == 0 then
                if b & 2 == 0 then (if b & 1 == 0 then 0x60 else 0x81) else (if b & 1 == 0 then 0x4F else 0xDC)
              else
                if b & 2 == 0 then (if b & 1 == 0 then 0x22 else 0x2A) else (if b & 1 == 0 then 0x90 else 0x88)
            else
              if b & 0x04 == 0 then
                if b & 2 == 0 then (if b & 1 == 0 then 0x46 else 0xEE) else (if b & 1 == 0 then 0xB8 else 0x14)
              else
                if b & 2 == 0 then (if b & 1 == 0 then 0xDE else 0x5E) else (if b & 1 == 0 then 0x0B else 0xDB)
        else
          if b & 0x10 == 0 then
            if b & 0x08 == 0 then
              if b & 0x04 == 0 then
                if b & 2 == 0 then (if b & 1 == 0 then 0xE0 else 0x32) else (if b & 1 == 0 then 0x3A else 0x0A)
              else
                if b & 2 == 0 then (if b & 1 == 0 then 0x49 else 0x06) else (if b & 1 == 0 then 0x24 else 0x5C)
            else
              if b & 0x04 == 0 then
                if b & 2 == 0 then (if b & 1 == 0 then 0xC2 else 0xD3) else (if b & 1 == 0 then 0xAC else 0x62)
              else
                if b & 2 == 0 then (if b & 1 == 0 then 0x91 else 0x95) else (if b & 1 == 0 then 0xE4 else 0x79)
          else
            if b & 0x08 == 0 then
              if b & 0x04 == 0 then
                if b & 2 == 0 then (if b & 1 == 0 then 0xE7 else 0xC8) else (if b & 1 == 0 then 0x37 else 0x6D)
              else
                if b & 2 == 0 then (if b & 1 == 0 then 0x8D else 0xD5) else (if b & 1 == 0 then 0x4E else 0xA9)
            else
              if b & 0x04 == 0 then
                if b & 2 == 0 then (if b & 1 == 0 then 0x6C else 0x56) else (if b & 1 == 0 then 0xF4 else 0xEA)
              else
                if b & 2 == 0 then (if b & 1 == 0 then 0x65 else 0x7A) else (if b & 1 == 0 then 0xAE else 0x08)
      else
        if b & 0x20 == 0 then
          if b & 0x10 == 0 then
            if b & 0x08 == 0 then
              if b & 0x04 == 0 then
                if b & 2 == 0 then (if b & 1 == 0 then 0xBA else 0x78) else (if b & 1 == 0 then 0x25 else 0x2E)
              else
                if b & 2 == 0 then (if b & 1 == 0 then 0x1C else 0xA6) else (if b & 1 == 0 then 0xB4 else 0xC6)
            else
              if b & 0x04 == 0 then
                if b & 2 == 0 then (if b & 1 == 0 then 0xE8 else 0xDD) else (if b & 1 == 0 then 0x74 else 0x1F)
              else
                if b & 2 == 0 then (if b & 1 == 0 then 0x4B else 0xBD) else (if b & 1 == 0 then 0x8B else 0x8A)
          else
            if b & 0x08 == 0 then
              if b & 0x04 == 0 then
                if b & 2 == 0 then (if b & 1 == 0 then 0x70 else 0x3E) else (if b & 1 == 0 then 0xB5 else 0x66)
              else
                if b & 2 == 0 then (if b & 1 == 0 then 0x48 else 0x03) else (if b & 1 == 0 then 0xF6 else 0x0E)
            else
              if b & 0x04 == 0 then
                if b & 2 == 0 then (if b & 1 == 0 then 0x61 else 0x35) else (if b & 1 == 0 then 0x57 else 0xB9)
              else
                if b & 2 == 0 then (if b & 1 == 0 then 0x86 else 0xC1) else (if b & 1 == 0 then 0x1D else 0x9E)
        else
          if b & 0x10 == 0 then
            if b & 0x08 == 0 then
              if b & 0x04 == 0 then
                if b & 2 == 0 then (if b & 1 == 0 then 0xE1 else 0xF8) else (if b & 1 == 0 then 0x98 else 0x11)
              else
                if b & 2 == 0 then (if b & 1 == 0 then 0x69 else 0xD9) else (if b & 1 == 0 then 0x8E else 0x94)
            else
              if b & 0x04 == 0 then
                if b & 2 == 0 then (if b & 1 == 0 then 0x9B else 0x1E) else (if b & 1 == 0 then 0x87 else 0xE9)
              else
                if b & 2 == 0 then (if b & 1 == 0 then 0xCE else 0x55) else (if b & 1 == 0 then 0x28 else 0xDF)
          else
            if b & 0x08 == 0 then
              if b & 0x04 == 0 then
                if b & 2 == 0 then (if b & 1 == 0 then 0x8C else 0xA1) else (if b & 1 == 0 then 0x89 else 0x0D)
              else
                if b & 2 == 0 then (if b & 1 == 0 then 0xBF else 0xE6) else (if b & 1 == 0 then 0x42 else 0x68)
            else
              if b & 0x04 == 0 then
                if b & 2 == 0 then (if b & 1 == 0 then 0x41 else 0x99) else (if b & 1 == 0 then 0x2D else 0x0F)
              else
                if b & 2 == 0 then (if b & 1 == 0 then 0xB0 else 0x54) else (if b & 1 == 0 then 0xBB else 0x16)
  }

  /** InvSubBytes (figure 14) */
  function InvSubValue(b: bv8): bv8 {
    if b & 0x80 == 0 then
      if b & 0x40 == 0 then
        if b & 0x20 == 0 then
          if b & 0x10 == 0 then
            if b & 0x08 == 0 then
              if b & 0x04 == 0 then
                if b & 2 == 0 then (if b & 1 == 0 then 0x52 else 0x09) else (if b & 1 == 0 then 0x6A else 0xD5)
              else
                if b & 2 == 0 then (if b & 1 == 0 then 0x30 else 0x36) else (if b & 1 == 0 then 0xA5 else 0x38)
            else
              if b & 0x04 == 0 then
                if b & 2 == 0 then (if b & 1 == 0 then 0xBF else 0x40) else (if b & 1 == 0 then 0xA3 else 0x9E)
              else
                if b & 2 == 0 then (if b & 1 == 0 then 0x81 else 0xF3) else (if b & 1 == 0 then 0xD7 else 0xFB)
          else
            if b & 0x08 == 0 then
              if b & 0x04 == 0 then
                if b & 2 == 0 then (if b & 1 == 0 then 0x7C else 0xE3) else (if b & 1 == 0 then 0x39 else 0x82)
              else
                if b & 2 == 0 then (if b & 1 == 0 then 0x9B else 0x2F) else (if b & 1 == 0 then 0xFF else 0x87)
            else
              if b & 0x04 == 0 then
                if b & 2 == 0 then (if b & 1 == 0 then 0x34 else 0x8E) else (if b & 1 == 0 then 0x43 else 0x44)
              else
                if b & 2 == 0 then (if b & 1 == 0 then 0xC4 else 0xDE) else (if b & 1 == 0 then 0xE9 else 0xCB)
        else
          if b & 0x10 == 0 then
            if b & 0x08 == 0 then
              if b & 0x04 == 0 then
                if b & 2 == 0 then (if b & 1 == 0 then 0x54 else 0x7B) else (if b & 1 == 0 then 0x94 else 0x32)
              else
                if b & 2 == 0 then (if b & 1 == 0 then 0xA6 else 0xC2) else (if b & 1 == 0 then 0x23 else 0x3D)
            else
              if b & 0x04 == 0 then
                if b & 2 == 0 then (if b & 1 == 0 then 0xEE else 0x4C) else (if b & 1 == 0 then 0x95 else 0x0B)
              else
                if b & 2 == 0 then (if b & 1 == 0 then 0x42 else 0xFA) else (if b & 1 == 0 then 0xC3 else 0x4E)
          else
            if b & 0x08 == 0 then
              if b & 0x04 == 0 then
                if b & 2 == 0 then (if b & 1 == 0 then 0x08 else 0x2E) else (if b & 1 == 0 then 0xA1 else 0x66)
              else
                if b & 2 == 0 then (if b & 1 == 0 then 0x28 else 0xD9) else (if b & 1 == 0 then 0x24 else 0xB2)
            else
              if b & 0x04 == 0 then
                if b & 2 == 0 then (if b & 1 == 0 then 0x76 else 0x5B) else (if b & 1 == 0 then 0xA2 else 0x49)
              else
                if b & 2 == 0 then (if b & 1 == 0 then 0x6D else 0x8B) else (if b & 1 == 0 then 0xD1 else 0x25)
      else
        if b & 0x20 == 0 then
          if b & 0x10 == 0 then
            if b & 0x08 == 0 then
              if b & 0x04 == 0 then
                if b & 2 == 0 then (if b & 1 == 0 then 0x72 else 0xF8) else (if b & 1 == 0 then 0xF6 else 0x64)
              else
                if b & 2 == 0 then (if b & 1 == 0 then 0x86 else 0x68) else (if b & 1 == 0 then 0x98 else 0x16)
            else
              if b & 0x04 == 0 then
                if b & 2 == 0 then (if b & 1 == 0 then 0xD4 else 0xA4) else (if b & 1 == 0 then 0x5C else 0xCC)
              else
                if b & 2 == 0 then (if b & 1 == 0 then 0x5D else 0x65) else (if b & 1 == 0 then 0xB6 else 0x92)
          else
            if b & 0x08 == 0 then
              if b & 0x04 == 0 then
                if b & 2 == 0 then (if b & 1 == 0 then 0x6C else 0x70) else (if b & 1 == 0 then 0x48 else 0x50)
              else
                if b & 2 == 0 then (if b & 1 == 0 then 0xFD else 0xED) else (if b & 1 == 0 then 0xB9 else 0xDA)
            else
              if b & 0x04 == 0 then
                if b & 2 == 0 then (if b & 1 == 0 then 0x5E else 0x15) else (if b & 1 == 0 then 0x46 else 0x57)
              else
                if b & 2 == 0 then (if b & 1 == 0 then 0xA7 else 0x8D) else (if b & 1 == 0 then 0x9D else 0x84)
        else
          if b & 0x10 == 0 then
            if b & 0x08 == 0 then
              if b & 0x04 == 0 then
                if b & 2 == 0 then (if b & 1 == 0 then 0x90 else 0xD8) else (if b & 1 == 0 then 0xAB else 0x00)
              else
                if b & 2 == 0 then (if b & 1 == 0 then 0x8C else 0xBC) else (if b & 1 == 0 then 0xD3 else 0x0A)
            else
              if b & 0x04 == 0 then
                if b & 2 == 0 then (if b & 1 == 0 then 0xF7 else 0xE4) else (if b & 1 == 0 then 0x58 else 0x05)
              else
                if b & 2 == 0 then (if b & 1 == 0 then 0xB8 else 0xB3) else (if b & 1 == 0 then 0x45 else 0x06)
          else
            if b & 0x08 == 0 then
              if b & 0x04 == 0 then
                if b & 2 == 0 then (if b & 1 == 0 then 0xD0 else 0x2C) else (if b & 1 == 0 then 0x1E else 0x8F)
              else
                if b & 2 == 0 then (if b & 1 == 0 then 0xCA else 0x3F) else (if b & 1 == 0 then 0x0F else 0x02)
            else
              if b & 0x04 == 0 then
                if b & 2 == 0 then (if b & 1 == 0 then 0xC1 else 0xAF) else (if b & 1 == 0 then 0xBD else 0x03)
              else
                if b & 2 == 0 then (if b & 1 == 0 then 0x01 else 0x13) else (if b & 1 == 0 then 0x8A else 0x6B)
    else
      if b & 0x40 == 0 then
        if b & 0x20 == 0 then
          if b & 0x10 == 0 then
            if b & 0x08 == 0 then
              if b & 0x04 == 0 then
                if b & 2 == 0 then (if b & 1 == 0 then 0x3A else 0x91) else (if b & 1 == 0 then 0x11 else 0x41)
              else
                if b & 2 == 0 then (if b & 1 == 0 then 0x4F else 0x67) else (if b & 1 == 0 then 0xDC else 0xEA)
            else
              if b & 0x04 == 0 then
                if b & 2 == 0 then (if b & 1 == 0 then 0x97 else 0xF2) else (if b & 1 == 0 then 0xCF else 0xCE)
              else
                if b & 2 == 0 then (if b & 1 == 0 then 0xF0 else 0xB4) else (if b & 1 == 0 then 0xE6 else 0x73)
          else
            if b & 0x08 == 0 then
              if b & 0x04 == 0 then
                if b & 2 == 0 then (if b & 1 == 0 then 0x96 else 0xAC) else (if b & 1 == 0 then 0x74 else 0x22)
              else
                if b & 2 == 0 then (if b & 1 == 0 then 0xE7 else 0xAD) else (if b & 1 == 0 then 0x35 else 0x85)
            else
              if b & 0x04 == 0 then
                if b & 2 == 0 then (if b & 1 == 0 then 0xE2 else 0xF9) else (if b & 1 == 0 then 0x37 else 0xE8)
              else
                if b & 2 == 0 then (if b & 1 == 0 then 0x1C else 0x75) else (if b & 1 == 0 then 0xDF else 0x6E)
        else
          if b & 0x10 == 0 then
            if b & 0x08 == 0 then
              if b & 0x04 == 0 then
                if b & 2 == 0 then (if b & 1 == 0 then 0x47 else 0xF1) else (if b & 1 == 0 then 0x1A else 0x71)
              else
                if b & 2 == 0 then (if b & 1 == 0 then 0x1D else 0x29) else (if b & 1 == 0 then 0xC5 else 0x89)
            else
              if b & 0x04 == 0 then
                if b & 2 == 0 then (if b & 1 == 0 then 0x6F else 0xB7) else (if b & 1 == 0 then 0x62 else 0x0E)
              else
                if b & 2 == 0 then (if b & 1 == 0 then 0xAA else 0x18) else (if b & 1 == 0 then 0xBE else 0x1B)
          else
            if b & 0x08 == 0 then
              if b & 0x04 == 0 then
                if b & 2 == 0 then (if b & 1 == 0 then 0xFC else 0x56) else (if b & 1 == 0 then 0x3E else 0x4B)
              else
                if b & 2 == 0 then (if b & 1 == 0 then 0xC6 else 0xD2) else (if b & 1 == 0 then 0x79 else 0x20)
            else
              if b & 0x04 == 0 then
                if b & 2 == 0 then (if b & 1 == 0 then 0x9A else 0xDB) else (if b & 1 == 0 then 0xC0 else 0xFE)
              else
                if b & 2 == 0 then (if b & 1 == 0 then 0x78 else 0xCD) else (if b & 1 == 0 then 0x5A else 0xF4)
      else
        if b & 0x20 == 0 then
          if b & 0x10 == 0 then
            if b & 0x08 == 0 then
              if b & 0x04 == 0 then
                if b & 2 == 0 then (if b & 1 == 0 then 0x1F else 0xDD) else (if b & 1 == 0 then 0xA8 else 0x33)
              else
                if b & 2 == 0 then (if b & 1 == 0 then 0x88 else 0x07) else (if b & 1 == 0 then 0xC7 else 0x31)
            else
              if b & 0x04 == 0 then
                if b & 2 == 0 then (if b & 1 == 0 then 0xB1 else 0x12) else (if b & 1 == 0 then 0x10 else 0x59)
              else
                if b & 2 == 0 then (if b & 1 == 0 then 0x27 else 0x80) else (if b & 1 == 0 then 0xEC else 0x5F)
          else
            if b & 0x08 == 0 then
              if b & 0x04 == 0 then
                if b & 2 == 0 then (if b & 1 == 0 then 0x60 else 0x51) else (if b & 1 == 0 then 0x7F else 0xA9)
              else
                if b & 2 == 0 then (if b & 1 == 0 then 0x19 else 0xB5) else (if b & 1 == 0 then 0x4A else 0x0D)
            else
              if b & 0x04 == 0 then
                if b & 2 == 0 then (if b & 1 == 0 then 0x2D else 0xE5) else (if b & 1 == 0 then 0x7A else 0x9F)
              else
                if b & 2 == 0 then (if b & 1 == 0 then 0x93 else 0xC9) else (if b & 1 == 0 then 0x9C else 0xEF)
        else
          if b & 0x10 == 0 then
            if b & 0x08 == 0 then
              if b & 0x04 == 0 then
                if b & 2 == 0 then (if b & 1 == 0 then 0xA0 else 0xE0) else (if b & 1 == 0 then 0x3B else 0x4D)
              else
                if b & 2 == 0 then (if b & 1 == 0 then 0xAE else 0x2A) else (if b & 1 == 0 then 0xF5 else 0xB0)
            else
              if b & 0x04 == 0 then
                if b & 2 == 0 then (if b & 1 == 0 then 0xC8 else 0xEB) else (if b & 1 == 0 then 0xBB else 0x3C)
              else
                if b & 2 == 0 then (if b & 1 == 0 then 0x83 else 0x53) else (if b & 1 == 0 then 0x99 else 0x61)
          else
            if b & 0x08 == 0 then
              if b & 0x04 == 0 then
                if b & 2 == 0 then (if b & 1 == 0 then 0x17 else 0x2B) else (if b & 1 == 0 then 0x04 else 0x7E)
              else
                if b & 2 == 0 then (if b & 1 == 0 then 0xBA else 0x77) else (if b & 1 == 0 then 0xD6 else 0x26)
            else
              if b & 0x04 == 0 then
                if b & 2 == 0 then (if b & 1 == 0 then 0xE1 else 0x69) else (if b & 1 == 0 then 0x14 else 0x63)
              else
                if b & 2 == 0 then (if b & 1 == 0 then 0x55 else 0x21) else (if b & 1 == 0 then 0x0C else 0x7D)
  }

  const SBOX := Box((b: Byte) => Byte(SubValue(b.bits)), (b: Byte) => Byte(InvSubValue(b.bits)))

  lemma SubstitutionUndone(b: bv8)
    ensures InvSubValue(SubValue(b)) == b && SubValue(InvSubValue(b)) == b
  {
  }

  /** The two tables undo each other, so that all that is proved for such pairs holds of them. */
  lemma SboxInverts()
    ensures Inverses(SBOX)
  {
    forall b
      ensures SBOX.inv(SBOX.fwd(b)) == b && SBOX.fwd(SBOX.inv(b)) == b
    {
      SubstitutionUndone(b.bits);
    }
  }

  /** Multiplication of section 4.2 */
  function GfMul(a: bv8, b: bv8): bv8 {
    var a1 := Twice(a); var a2 := Twice(a1); var a3 := Twice(a2); var a4 := Twice(a3);
    var a5 := Twice(a4); var a6 := Twice(a5); var a7 := Twice(a6);
    (if b & 1 != 0 then a else 0) ^ (if b & 2 != 0 then a1 else 0) ^ (if b & 4 != 0 then a2 else 0)
    ^ (if b & 8 != 0 then a3 else 0) ^ (if b & 0x10 != 0 then a4 else 0) ^ (if b & 0x20 != 0 then a5 else 0)
    ^ (if b & 0x40 != 0 then a6 else 0) ^ (if b & 0x80 != 0 then a7 else 0)
  }

  function Twice(a: bv8): bv8 {
    Xtime(Byte(a)).bits
  }

  /** The affine transformation of section 5.1.1 */
  function Affine(x: bv8): bv8 {
    x ^ ((x << 1) | (x >> 7)) ^ ((x << 2) | (x >> 6)) ^ ((x << 3) | (x >> 5)) ^ ((x << 4) | (x >> 4)) ^ 0x63
  }

  function Unaffine(x: bv8): bv8 {
    ((x << 1) | (x >> 7)) ^ ((x << 3) | (x >> 5)) ^ ((x << 6) | (x >> 2)) ^ 0x05
  }

  /** The S-box is the affine transformation of the multiplicative inverse, and of 0 for 0. */
  lemma SboxIs(b: bv8)
    ensures SubValue(b) == Affine(Unaffine(SubValue(b)))
    ensures if b == 0 then Unaffine(SubValue(b)) == 0 else GfMul(b, Unaffine(SubValue(b))) == 1
  {
    UnaffineUndoes(SubValue(b));
    InverseIs(b);
    hide Affine, Unaffine, GfMul, SubValue;
  }

  lemma UnaffineUndoes(x: bv8)
    ensures Affine(Unaffine(x)) == x
  {
  }

  lemma InverseIs(b: bv8)
    ensures if b == 0 then Unaffine(SubValue(b)) == 0 else GfMul(b, Unaffine(SubValue(b))) == 1
  {
  }

  // ------------------------------------------------------- the example of appendices A and B

  /** Four words as a block, a word for a column */
  function Four(a: bv32, b: bv32, c: bv32, d: bv32): Block {
    Words4(Word(a), Word(b), Word(c), Word(d))
  }

  const KEY: seq<Word> := [Word(0x2B7E1516), Word(0x28AED2A6), Word(0xABF71588), Word(0x09CF4F3C)]

  const PLAIN := Four(0x3243F6A8, 0x885A308D, 0x313198A2, 0xE0370734)

  /** Four words of the expanded key from the four before */
  /** One word of an expansion: the word before it enters as it is, substituted, or rotated,
      substituted and marked with a round constant (section 5.2). */
  lemma NextOf(key: seq<Word>, i: nat, back: Word, t: Word)
    requires (|key| == 4 || |key| == 6 || |key| == 8) && i >= |key|
    requires ExpandedWord(SBOX, key, i - |key|) == back
    requires var prev := ExpandedWord(SBOX, key, i - 1);
      t == if i % |key| == 0 then Xor(SubWord(SBOX, RotWord(prev)), Rcon(i / |key| - 1))
           else if |key| == 8 && i % 8 == 4 then SubWord(SBOX, prev) else prev
    ensures ExpandedWord(SBOX, key, i) == Xor(back, t)
  {
    hide Xor, SubWord, RotWord, Rcon;
  }

  lemma Multiples(i: nat, r: nat)
    requires i == 4 * r
    ensures i % 4 == 0 && i / 4 == r && (i + 1) % 4 == 1 && (i + 2) % 4 == 2 && (i + 3) % 4 == 3
  {
  }

  lemma NextKey(key: seq<Word>, i: nat, r: nat, a: Word, b: Word, c: Word, d: Word, t: Word)
    requires |key| == 4 && i == 4 * r && r > 0 && t == Xor(SubWord(SBOX, RotWord(d)), Rcon(r - 1))
    requires ExpandedWord(SBOX, key, i - 4) == a && ExpandedWord(SBOX, key, i - 3) == b
    requires ExpandedWord(SBOX, key, i - 2) == c && ExpandedWord(SBOX, key, i - 1) == d
    ensures ExpandedWord(SBOX, key, i) == Xor(a, t) && ExpandedWord(SBOX, key, i + 1) == Xor(b, Xor(a, t))
    ensures ExpandedWord(SBOX, key, i + 2) == Xor(c, Xor(b, Xor(a, t)))
    ensures ExpandedWord(SBOX, key, i + 3) == Xor(d, Xor(c, Xor(b, Xor(a, t))))
  {
    hide Xor, SubWord, RotWord, Rcon, ExpandedWord;
    Multiples(i, r);
    NextOf(key, i, a, t);
    NextOf(key, i + 1, b, Xor(a, t));
    NextOf(key, i + 2, c, Xor(b, Xor(a, t)));
    NextOf(key, i + 3, d, Xor(c, Xor(b, Xor(a, t))));
  }

  lemma Key1()
    ensures ExpandedWord(SBOX, KEY, 4) == Word(0xA0FAFE17)
    ensures ExpandedWord(SBOX, KEY, 5) == Word(0x88542CB1)
    ensures ExpandedWord(SBOX, KEY, 6) == Word(0x23A33939)
    ensures ExpandedWord(SBOX, KEY, 7) == Word(0x2A6C7605)
  {
    assert ExpandedWord(SBOX, KEY, 0) == KEY[0] && ExpandedWord(SBOX, KEY, 1) == KEY[1];
    assert ExpandedWord(SBOX, KEY, 2) == KEY[2] && ExpandedWord(SBOX, KEY, 3) == KEY[3];
    hide ExpandedWord;
    assert Xor(SubWord(SBOX, RotWord(Word(0x09CF4F3C))), Rcon(0)) == Word(0x8B84EB01);
    NextKey(KEY, 4, 1, Word(0x2B7E1516), Word(0x28AED2A6), Word(0xABF71588), Word(0x09CF4F3C), Word(0x8B84EB01));
  }

  lemma Key2()
    ensures ExpandedWord(SBOX, KEY, 8) == Word(0xF2C295F2)
    ensures ExpandedWord(SBOX, KEY, 9) == Word(0x7A96B943)
    ensures ExpandedWord(SBOX, KEY, 10) == Word(0x5935807A)
    ensures ExpandedWord(SBOX, KEY, 11) == Word(0x7359F67F)
  {
    Key1();
    hide ExpandedWord;
    assert Xor(SubWord(SBOX, RotWord(Word(0x2A6C7605))), Rcon(1)) == Word(0x52386BE5);
    NextKey(KEY, 8, 2, Word(0xA0FAFE17), Word(0x88542CB1), Word(0x23A33939), Word(0x2A6C7605), Word(0x52386BE5));
  }

  lemma Key3()
    ensures ExpandedWord(SBOX, KEY, 12) == Word(0x3D80477D)
    ensures ExpandedWord(SBOX, KEY, 13) == Word(0x4716FE3E)
    ensures ExpandedWord(SBOX, KEY, 14) == Word(0x1E237E44)
    ensures ExpandedWord(SBOX, KEY, 15) == Word(0x6D7A883B)
  {
    Key2();
    hide ExpandedWord;
    assert Xor(SubWord(SBOX, RotWord(Word(0x7359F67F))), Rcon(2)) == Word(0xCF42D28F);
    NextKey(KEY, 12, 3, Word(0xF2C295F2), Word(0x7A96B943), Word(0x5935807A), Word(0x7359F67F), Word(0xCF42D28F));
  }

  lemma Key4()
    ensures ExpandedWord(SBOX, KEY, 16) == Word(0xEF44A541)
    ensures ExpandedWord(SBOX, KEY, 17) == Word(0xA8525B7F)
    ensures ExpandedWord(SBOX, KEY, 18) == Word(0xB671253B)
    ensures ExpandedWord(SBOX, KEY, 19) == Word(0xDB0BAD00)
  {
    Key3();
    hide ExpandedWord;
    assert Xor(SubWord(SBOX, RotWord(Word(0x6D7A883B))), Rcon(3)) == Word(0xD2C4E23C);
    NextKey(KEY, 16, 4, Word(0x3D80477D), Word(0x4716FE3E), Word(0x1E237E44), Word(0x6D7A883B), Word(0xD2C4E23C));
  }

  lemma Key5()
    ensures ExpandedWord(SBOX, KEY, 20) == Word(0xD4D1C6F8)
    ensures ExpandedWord(SBOX, KEY, 21) == Word(0x7C839D87)
    ensures ExpandedWord(SBOX, KEY, 22) == Word(0xCAF2B8BC)
    ensures ExpandedWord(SBOX, KEY, 23) == Word(0x11F915BC)
  {
    Key4();
    hide ExpandedWord;
    assert Xor(SubWord(SBOX, RotWord(Word(0xDB0BAD00))), Rcon(4)) == Word(0x3B9563B9);
    NextKey(KEY, 20, 5, Word(0xEF44A541), Word(0xA8525B7F), Word(0xB671253B), Word(0xDB0BAD00), Word(0x3B9563B9));
  }

  lemma Key6()
    ensures ExpandedWord(SBOX, KEY, 24) == Word(0x6D88A37A)
    ensures ExpandedWord(SBOX, KEY, 25) == Word(0x110B3EFD)
    ensures ExpandedWord(SBOX, KEY, 26) == Word(0xDBF98641)
    ensures ExpandedWord(SBOX, KEY, 27) == Word(0xCA0093FD)
  {
    Key5();
    hide ExpandedWord;
    assert Xor(SubWord(SBOX, RotWord(Word(0x11F915BC))), Rcon(5)) == Word(0xB9596582);
    NextKey(KEY, 24, 6, Word(0xD4D1C6F8), Word(0x7C839D87), Word(0xCAF2B8BC), Word(0x11F915BC), Word(0xB9596582));
  }

  lemma Key7()
    ensures ExpandedWord(SBOX, KEY, 28) == Word(0x4E54F70E)
    ensures ExpandedWord(SBOX, KEY, 29) == Word(0x5F5FC9F3)
    ensures ExpandedWord(SBOX, KEY, 30) == Word(0x84A64FB2)
    ensures ExpandedWord(SBOX, KEY, 31) == Word(0x4EA6DC4F)
  {
    Key6();
    hide ExpandedWord;
    assert Xor(SubWord(SBOX, RotWord(Word(0xCA0093FD))), Rcon(6)) == Word(0x23DC5474);
    NextKey(KEY, 28, 7, Word(0x6D88A37A), Word(0x110B3EFD), Word(0xDBF98641), Word(0xCA0093FD), Word(0x23DC5474));
  }

  lemma Key8()
    ensures ExpandedWord(SBOX, KEY, 32) == Word(0xEAD27321)
    ensures ExpandedWord(SBOX, KEY, 33) == Word(0xB58DBAD2)
    ensures ExpandedWord(SBOX, KEY, 34) == Word(0x312BF560)
    ensures ExpandedWord(SBOX, KEY, 35) == Word(0x7F8D292F)
  {
    Key7();
    hide ExpandedWord;
    assert Xor(SubWord(SBOX, RotWord(Word(0x4EA6DC4F))), Rcon(7)) == Word(0xA486842F);
    NextKey(KEY, 32, 8, Word(0x4E54F70E), Word(0x5F5FC9F3), Word(0x84A64FB2), Word(0x4EA6DC4F), Word(0xA486842F));
  }

  lemma Key9()
    ensures ExpandedWord(SBOX, KEY, 36) == Word(0xAC7766F3)
    ensures ExpandedWord(SBOX, KEY, 37) == Word(0x19FADC21)
    ensures ExpandedWord(SBOX, KEY, 38) == Word(0x28D12941)
    ensures ExpandedWord(SBOX, KEY, 39) == Word(0x575C006E)
  {
    Key8();
    hide ExpandedWord;
    assert Xor(SubWord(SBOX, RotWord(Word(0x7F8D292F))), Rcon(8)) == Word(0x46A515D2);
    NextKey(KEY, 36, 9, Word(0xEAD27321), Word(0xB58DBAD2), Word(0x312BF560), Word(0x7F8D292F), Word(0x46A515D2));
  }

  lemma Key10()
    ensures ExpandedWord(SBOX, KEY, 40) == Word(0xD014F9A8)
    ensures ExpandedWord(SBOX, KEY, 41) == Word(0xC9EE2589)
    ensures ExpandedWord(SBOX, KEY, 42) == Word(0xE13F0CC8)
    ensures ExpandedWord(SBOX, KEY, 43) == Word(0xB6630CA6)
  {
    Key9();
    hide ExpandedWord;
    assert Xor(SubWord(SBOX, RotWord(Word(0x575C006E))), Rcon(9)) == Word(0x7C639F5B);
    NextKey(KEY, 40, 10, Word(0xAC7766F3), Word(0x19FADC21), Word(0x28D12941), Word(0x575C006E), Word(0x7C639F5B));
  }

  const KEY_192: seq<Word> := [
    Word(0x8E73B0F7), Word(0xDA0E6452), Word(0xC810F32B), Word(0x809079E5), Word(0x62F8EAD2), Word(0x522C6B7B)]

  const KEY_256: seq<Word> := [
    Word(0x603DEB10), Word(0x15CA71BE), Word(0x2B73AEF0), Word(0x857D7781),
    Word(0x1F352C07), Word(0x3B6108D7), Word(0x2D9810A3), Word(0x0914DFF4)]

  lemma Given(key: seq<Word>, i: nat)
    requires (|key| == 4 || |key| == 6 || |key| == 8) && i < |key|
    ensures ExpandedWord(SBOX, key, i) == key[i]
  {
  }

  lemma LongTemps()
    ensures Xor(SubWord(SBOX, RotWord(Word(0x522C6B7B))), Rcon(0)) == Word(0x707F2100)
    ensures Xor(SubWord(SBOX, RotWord(Word(0x0914DFF4))), Rcon(0)) == Word(0xFB9EBF01)
    ensures SubWord(SBOX, Word(0x2067FCDE)) == Word(0xB785B01D)
  {
  }

  /** The first new words of the 192-bit key of appendix A.2 */
  lemma Key192()
    ensures ExpandedWord(SBOX, KEY_192, 6) == Word(0xFE0C91F7) && ExpandedWord(SBOX, KEY_192, 7) == Word(0x2402F5A5)
  {
    LongTemps();
    Given(KEY_192, 0);
    Given(KEY_192, 1);
    Given(KEY_192, 5);
    hide ExpandedWord, SubWord, RotWord, Rcon;
    NextOf(KEY_192, 6, Word(0x8E73B0F7), Word(0x707F2100));
    NextOf(KEY_192, 7, Word(0xDA0E6452), Word(0xFE0C91F7));
  }

  lemma FirstOf256()
    ensures ExpandedWord(SBOX, KEY_256, 8) == Word(0x9BA35411) && ExpandedWord(SBOX, KEY_256, 9) == Word(0x8E6925AF)
  {
    LongTemps();
    Given(KEY_256, 0);
    Given(KEY_256, 1);
    Given(KEY_256, 7);
    hide ExpandedWord, SubWord, RotWord, Rcon;
    NextOf(KEY_256, 8, Word(0x603DEB10), Word(0xFB9EBF01));
    NextOf(KEY_256, 9, Word(0x15CA71BE), Word(0x9BA35411));
  }

  /** The first new words of the 256-bit key of appendix A.3, up to the extra substitution */
  lemma Key256()
    ensures ExpandedWord(SBOX, KEY_256, 8) == Word(0x9BA35411) && ExpandedWord(SBOX, KEY_256, 11) == Word(0x2067FCDE)
    ensures ExpandedWord(SBOX, KEY_256, 12) == Word(0xA8B09C1A)
  {
    LongTemps();
    FirstOf256();
    Given(KEY_256, 2);
    Given(KEY_256, 3);
    Given(KEY_256, 4);
    hide ExpandedWord, SubWord, RotWord, Rcon;
    NextOf(KEY_256, 10, Word(0x2B73AEF0), Word(0x8E6925AF));
    NextOf(KEY_256, 11, Word(0x857D7781), Word(0xA51A8B5F));
    NextOf(KEY_256, 12, Word(0x1F352C07), Word(0xB785B01D));
  }

  lemma KeyAt(r: nat)
    requires r <= 10
    ensures EncSchedule(SBOX, KEY, 10)[r]
         == Words4(ExpandedWord(SBOX, KEY, 4 * r), ExpandedWord(SBOX, KEY, 4 * r + 1),
                   ExpandedWord(SBOX, KEY, 4 * r + 2), ExpandedWord(SBOX, KEY, 4 * r + 3))
  {
    hide ExpandedWord, Split;
  }

  /** One round, worked out */
  lemma Round(r: nat, before: Block, key: Block, after: Block)
    requires 0 < r < 10 && Rounds(SBOX, EncSchedule(SBOX, KEY, 10), PLAIN, r - 1) == before
    requires EncSchedule(SBOX, KEY, 10)[r] == key
    requires AesSpec.AddKey(MixColumns(ShiftRows(SubBytes(SBOX.fwd, before))), key) == after
    ensures Rounds(SBOX, EncSchedule(SBOX, KEY, 10), PLAIN, r) == after
  {
    hide EncSchedule, MixColumns, ShiftRows, SubBytes, AesSpec.AddKey, Four;
  }

  lemma Round0()
    ensures Rounds(SBOX, EncSchedule(SBOX, KEY, 10), PLAIN, 0)
         == Four(0x193DE3BE, 0xA0F4E22B, 0x9AC68D2A, 0xE9F84808)
  {
    assert ExpandedWord(SBOX, KEY, 0) == KEY[0] && ExpandedWord(SBOX, KEY, 1) == KEY[1];
    assert ExpandedWord(SBOX, KEY, 2) == KEY[2] && ExpandedWord(SBOX, KEY, 3) == KEY[3];
    KeyAt(0);
    hide ExpandedWord, EncSchedule;
  }

  lemma Round1()
    ensures Rounds(SBOX, EncSchedule(SBOX, KEY, 10), PLAIN, 1)
         == Four(0xA49C7FF2, 0x689F352B, 0x6B5BEA43, 0x026A5049)
  {
    Round0();
    Key1();
    KeyAt(1);
    Subbed1();
    Mixed1();
    hide ExpandedWord, EncSchedule, Rounds, SubBytes, ShiftRows, MixColumns;
    Round(1, Four(0x193DE3BE, 0xA0F4E22B, 0x9AC68D2A, 0xE9F84808),
          Four(0xA0FAFE17, 0x88542CB1, 0x23A33939, 0x2A6C7605),
          Four(0xA49C7FF2, 0x689F352B, 0x6B5BEA43, 0x026A5049));
  }

  lemma Subbed1()
    ensures SubBytes(SBOX.fwd, Four(0x193DE3BE, 0xA0F4E22B, 0x9AC68D2A, 0xE9F84808))
         == Four(0xD42711AE, 0xE0BF98F1, 0xB8B45DE5, 0x1E415230)
  {
  }

  lemma Mixed1()
    ensures MixColumns(ShiftRows(Four(0xD42711AE, 0xE0BF98F1, 0xB8B45DE5, 0x1E415230)))
         == Four(0x046681E5, 0xE0CB199A, 0x48F8D37A, 0x2806264C)
  {
  }

  lemma Round2()
    ensures Rounds(SBOX, EncSchedule(SBOX, KEY, 10), PLAIN, 2)
         == Four(0xAA8F5F03, 0x61DDE3EF, 0x82D24AD2, 0x6832469A)
  {
    Round1();
    Key2();
    KeyAt(2);
    Subbed2();
    Mixed2();
    hide ExpandedWord, EncSchedule, Rounds, SubBytes, ShiftRows, MixColumns;
    Round(2, Four(0xA49C7FF2, 0x689F352B, 0x6B5BEA43, 0x026A5049),
          Four(0xF2C295F2, 0x7A96B943, 0x5935807A, 0x7359F67F),
          Four(0xAA8F5F03, 0x61DDE3EF, 0x82D24AD2, 0x6832469A));
  }

  lemma Subbed2()
    ensures SubBytes(SBOX.fwd, Four(0xA49C7FF2, 0x689F352B, 0x6B5BEA43, 0x026A5049))
         == Four(0x49DED289, 0x45DB96F1, 0x7F39871A, 0x7702533B)
  {
  }

  lemma Mixed2()
    ensures MixColumns(ShiftRows(Four(0x49DED289, 0x45DB96F1, 0x7F39871A, 0x7702533B)))
         == Four(0x584DCAF1, 0x1B4B5AAC, 0xDBE7CAA8, 0x1B6BB0E5)
  {
  }

  lemma Round3()
    ensures Rounds(SBOX, EncSchedule(SBOX, KEY, 10), PLAIN, 3)
         == Four(0x486C4EEE, 0x671D9D0D, 0x4DE3B138, 0xD65F58E7)
  {
    Round2();
    Key3();
    KeyAt(3);
    Subbed3();
    Mixed3();
    hide ExpandedWord, EncSchedule, Rounds, SubBytes, ShiftRows, MixColumns;
    Round(3, Four(0xAA8F5F03, 0x61DDE3EF, 0x82D24AD2, 0x6832469A),
          Four(0x3D80477D, 0x4716FE3E, 0x1E237E44, 0x6D7A883B),
          Four(0x486C4EEE, 0x671D9D0D, 0x4DE3B138, 0xD65F58E7));
  }

  lemma Subbed3()
    ensures SubBytes(SBOX.fwd, Four(0xAA8F5F03, 0x61DDE3EF, 0x82D24AD2, 0x6832469A))
         == Four(0xAC73CF7B, 0xEFC111DF, 0x13B5D6B5, 0x45235AB8)
  {
  }

  lemma Mixed3()
    ensures MixColumns(ShiftRows(Four(0xAC73CF7B, 0xEFC111DF, 0x13B5D6B5, 0x45235AB8)))
         == Four(0x75EC0993, 0x200B6333, 0x53C0CF7C, 0xBB25D0DC)
  {
  }

  lemma Round4()
    ensures Rounds(SBOX, EncSchedule(SBOX, KEY, 10), PLAIN, 4)
         == Four(0xE0927FE8, 0xC86363C0, 0xD9B13550, 0x85B8BE01)
  {
    Round3();
    Key4();
    KeyAt(4);
    Subbed4();
    Mixed4();
    hide ExpandedWord, EncSchedule, Rounds, SubBytes, ShiftRows, MixColumns;
    Round(4, Four(0x486C4EEE, 0x671D9D0D, 0x4DE3B138, 0xD65F58E7),
          Four(0xEF44A541, 0xA8525B7F, 0xB671253B, 0xDB0BAD00),
          Four(0xE0927FE8, 0xC86363C0, 0xD9B13550, 0x85B8BE01));
  }

  lemma Subbed4()
    ensures SubBytes(SBOX.fwd, Four(0x486C4EEE, 0x671D9D0D, 0x4DE3B138, 0xD65F58E7))
         == Four(0x52502F28, 0x85A45ED7, 0xE311C807, 0xF6CF6A94)
  {
  }

  lemma Mixed4()
    ensures MixColumns(ShiftRows(Four(0x52502F28, 0x85A45ED7, 0xE311C807, 0xF6CF6A94)))
         == Four(0x0FD6DAA9, 0x603138BF, 0x6FC0106B, 0x5EB31301)
  {
  }

  lemma Round5()
    ensures Rounds(SBOX, EncSchedule(SBOX, KEY, 10), PLAIN, 5)
         == Four(0xF1006F55, 0xC1924CEF, 0x7CC88B32, 0x5DB5D50C)
  {
    Round4();
    Key5();
    KeyAt(5);
    Subbed5();
    Mixed5();
    hide ExpandedWord, EncSchedule, Rounds, SubBytes, ShiftRows, MixColumns;
    Round(5, Four(0xE0927FE8, 0xC86363C0, 0xD9B13550, 0x85B8BE01),
          Four(0xD4D1C6F8, 0x7C839D87, 0xCAF2B8BC, 0x11F915BC),
          Four(0xF1006F55, 0xC1924CEF, 0x7CC88B32, 0x5DB5D50C));
  }

  lemma Subbed5()
    ensures SubBytes(SBOX.fwd, Four(0xE0927FE8, 0xC86363C0, 0xD9B13550, 0x85B8BE01))
         == Four(0xE14FD29B, 0xE8FBFBBA, 0x35C89653, 0x976CAE7C)
  {
  }

  lemma Mixed5()
    ensures MixColumns(ShiftRows(Four(0xE14FD29B, 0xE8FBFBBA, 0x35C89653, 0x976CAE7C)))
         == Four(0x25D1A9AD, 0xBD11D168, 0xB63A338E, 0x4C4CC0B0)
  {
  }

  lemma Round6()
    ensures Rounds(SBOX, EncSchedule(SBOX, KEY, 10), PLAIN, 6)
         == Four(0x260E2E17, 0x3D41B77D, 0xE86472A9, 0xFDD28B25)
  {
    Round5();
    Key6();
    KeyAt(6);
    Subbed6();
    Mixed6();
    hide ExpandedWord, EncSchedule, Rounds, SubBytes, ShiftRows, MixColumns;
    Round(6, Four(0xF1006F55, 0xC1924CEF, 0x7CC88B32, 0x5DB5D50C),
          Four(0x6D88A37A, 0x110B3EFD, 0xDBF98641, 0xCA0093FD),
          Four(0x260E2E17, 0x3D41B77D, 0xE86472A9, 0xFDD28B25));
  }

  lemma Subbed6()
    ensures SubBytes(SBOX.fwd, Four(0xF1006F55, 0xC1924CEF, 0x7CC88B32, 0x5DB5D50C))
         == Four(0xA163A8FC, 0x784F29DF, 0x10E83D23, 0x4CD503FE)
  {
  }

  lemma Mixed6()
    ensures MixColumns(ShiftRows(Four(0xA163A8FC, 0x784F29DF, 0x10E83D23, 0x4CD503FE)))
         == Four(0x4B868D6D, 0x2C4A8980, 0x339DF4E8, 0x37D218D8)
  {
  }

  lemma Round7()
    ensures Rounds(SBOX, EncSchedule(SBOX, KEY, 10), PLAIN, 7)
         == Four(0x5A4142B1, 0x1949DC1F, 0xA3E01965, 0x7A8C040C)
  {
    Round6();
    Key7();
    KeyAt(7);
    Subbed7();
    Mixed7();
    hide ExpandedWord, EncSchedule, Rounds, SubBytes, ShiftRows, MixColumns;
    Round(7, Four(0x260E2E17, 0x3D41B77D, 0xE86472A9, 0xFDD28B25),
          Four(0x4E54F70E, 0x5F5FC9F3, 0x84A64FB2, 0x4EA6DC4F),
          Four(0x5A4142B1, 0x1949DC1F, 0xA3E01965, 0x7A8C040C));
  }

  lemma Subbed7()
    ensures SubBytes(SBOX.fwd, Four(0x260E2E17, 0x3D41B77D, 0xE86472A9, 0xFDD28B25))
         == Four(0xF7AB31F0, 0x2783A9FF, 0x9B4340D3, 0x54B53D3F)
  {
  }

  lemma Mixed7()
    ensures MixColumns(ShiftRows(Four(0xF7AB31F0, 0x2783A9FF, 0x9B4340D3, 0x54B53D3F)))
         == Four(0x1415B5BF, 0x461615EC, 0x274656D7, 0x342AD843)
  {
  }

  lemma Round8()
    ensures Rounds(SBOX, EncSchedule(SBOX, KEY, 10), PLAIN, 8)
         == Four(0xEA835CF0, 0x0445332D, 0x655D98AD, 0x8596B0C5)
  {
    Round7();
    Key8();
    KeyAt(8);
    Subbed8();
    Mixed8();
    hide ExpandedWord, EncSchedule, Rounds, SubBytes, ShiftRows, MixColumns;
    Round(8, Four(0x5A4142B1, 0x1949DC1F, 0xA3E01965, 0x7A8C040C),
          Four(0xEAD27321, 0xB58DBAD2, 0x312BF560, 0x7F8D292F),
          Four(0xEA835CF0, 0x0445332D, 0x655D98AD, 0x8596B0C5));
  }

  lemma Subbed8()
    ensures SubBytes(SBOX.fwd, Four(0x5A4142B1, 0x1949DC1F, 0xA3E01965, 0x7A8C040C))
         == Four(0xBE832CC8, 0xD43B86C0, 0x0AE1D44D, 0xDA64F2FE)
  {
  }

  lemma Mixed8()
    ensures MixColumns(ShiftRows(Four(0xBE832CC8, 0xD43B86C0, 0x0AE1D44D, 0xDA64F2FE)))
         == Four(0x00512FD1, 0xB1C889FF, 0x54766DCD, 0xFA1B99EA)
  {
  }

  lemma Round9()
    ensures Rounds(SBOX, EncSchedule(SBOX, KEY, 10), PLAIN, 9)
         == Four(0xEB40F21E, 0x592E3884, 0x8BA113E7, 0x1BC342D2)
  {
    Round8();
    Key9();
    KeyAt(9);
    Subbed9();
    Mixed9();
    hide ExpandedWord, EncSchedule, Rounds, SubBytes, ShiftRows, MixColumns;
    Round(9, Four(0xEA835CF0, 0x0445332D, 0x655D98AD, 0x8596B0C5),
          Four(0xAC7766F3, 0x19FADC21, 0x28D12941, 0x575C006E),
          Four(0xEB40F21E, 0x592E3884, 0x8BA113E7, 0x1BC342D2));
  }

  lemma Subbed9()
    ensures SubBytes(SBOX.fwd, Four(0xEA835CF0, 0x0445332D, 0x655D98AD, 0x8596B0C5))
         == Four(0x87EC4A8C, 0xF26EC3D8, 0x4D4C4695, 0x9790E7A6)
  {
  }

  lemma Mixed9()
    ensures MixColumns(ShiftRows(Four(0x87EC4A8C, 0xF26EC3D8, 0x4D4C4695, 0x9790E7A6)))
         == Four(0x473794ED, 0x40D4E4A5, 0xA3703AA6, 0x4C9F42BC)
  {
  }

  /** The example of appendix B: key, input and output. */
  lemma StandardExample()
    ensures Cipher(SBOX, EncSchedule(SBOX, KEY, 10), PLAIN) == Four(0x3925841D, 0x02DC09FB, 0xDC118597, 0x196A0B32)
  {
    Round9();
    Key10();
    KeyAt(10);
    Subbed10();
    hide ExpandedWord, EncSchedule, Rounds, SubBytes;
  }

  lemma Subbed10()
    ensures SubBytes(SBOX.fwd, Four(0xEB40F21E, 0x592E3884, 0x8BA113E7, 0x1BC342D2))
         == Four(0xE9098972, 0xCB31075F, 0x3D327D94, 0xAF2E2CB5)
  {
  }
}
