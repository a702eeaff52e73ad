/** The static lookup tables of the Reed-Solomon code, each a method whose contract says what
    the table means in the field: powers of r, logarithms to base r, and products with
    r^105 = 0xc0.  The literals, in rows of 32, are those of the driver; what is proved is that
    every one of the 256 entries of each table is right.
 */
module GaloisTables {
  import opened Bits
  import opened GaloisField

  /** r * p, as arithmetic on the number p.  No reduction is needed below r^7; from there on f(r)
      is taken away, which complements bits 0 to 2 and bit 7 of the shifted number. */
  function Shifted(p: byte): (q: byte)
    ensures q == TimesR(p)
  {
    hide TimesR;
    if p < 128 then
      TimesRSmall(p);
      2 * p
    else
      TimesRLarge(p);
      2 * p - 2 * ((2 * p) % 8) + (if p < 192 then -121 else -377)
  }

  /** p + 0xc0 in the field, as arithmetic: bits 6 and 7 are complemented. */
  function Toggled(p: byte): (q: byte)
    ensures q == Add(p, 0xc0)
  {
    hide Add;
    ToggleC0(p);
    p % 64 + 192 - 64 * (p / 64)
  }

  // ----- powers -----

  // gfpow: r^i at i.
  function PowRow0(i: int): byte {
    match i
    case 0 => 0x01 case 1 => 0x02 case 2 => 0x04 case 3 => 0x08
    case 4 => 0x10 case 5 => 0x20 case 6 => 0x40 case 7 => 0x80
    case 8 => 0x87 case 9 => 0x89 case 10 => 0x95 case 11 => 0xad
    case 12 => 0xdd case 13 => 0x3d case 14 => 0x7a case 15 => 0xf4
    case 16 => 0x6f case 17 => 0xde case 18 => 0x3b case 19 => 0x76
    case 20 => 0xec case 21 => 0x5f case 22 => 0xbe case 23 => 0xfb
    case 24 => 0x71 case 25 => 0xe2 case 26 => 0x43 case 27 => 0x86
    case 28 => 0x8b case 29 => 0x91 case 30 => 0xa5 case _ => 0xcd
  }

  function PowRow1(i: int): byte {
    match i
    case 32 => 0x1d case 33 => 0x3a case 34 => 0x74 case 35 => 0xe8
    case 36 => 0x57 case 37 => 0xae case 38 => 0xdb case 39 => 0x31
    case 40 => 0x62 case 41 => 0xc4 case 42 => 0x0f case 43 => 0x1e
    case 44 => 0x3c case 45 => 0x78 case 46 => 0xf0 case 47 => 0x67
    case 48 => 0xce case 49 => 0x1b case 50 => 0x36 case 51 => 0x6c
    case 52 => 0xd8 case 53 => 0x37 case 54 => 0x6e case 55 => 0xdc
    case 56 => 0x3f case 57 => 0x7e case 58 => 0xfc case 59 => 0x7f
    case 60 => 0xfe case 61 => 0x7b case 62 => 0xf6 case _ => 0x6b
  }

  function PowRow2(i: int): byte {
    match i
    case 64 => 0xd6 case 65 => 0x2b case 66 => 0x56 case 67 => 0xac
    case 68 => 0xdf case 69 => 0x39 case 70 => 0x72 case 71 => 0xe4
    case 72 => 0x4f case 73 => 0x9e case 74 => 0xbb case 75 => 0xf1
    case 76 => 0x65 case 77 => 0xca case 78 => 0x13 case 79 => 0x26
    case 80 => 0x4c case 81 => 0x98 case 82 => 0xb7 case 83 => 0xe9
    case 84 => 0x55 case 85 => 0xaa case 86 => 0xd3 case 87 => 0x21
    case 88 => 0x42 case 89 => 0x84 case 90 => 0x8f case 91 => 0x99
    case 92 => 0xb5 case 93 => 0xed case 94 => 0x5d case _ => 0xba
  }

  function PowRow3(i: int): byte {
    match i
    case 96 => 0xf3 case 97 => 0x61 case 98 => 0xc2 case 99 => 0x03
    case 100 => 0x06 case 101 => 0x0c case 102 => 0x18 case 103 => 0x30
    case 104 => 0x60 case 105 => 0xc0 case 106 => 0x07 case 107 => 0x0e
    case 108 => 0x1c case 109 => 0x38 case 110 => 0x70 case 111 => 0xe0
    case 112 => 0x47 case 113 => 0x8e case 114 => 0x9b case 115 => 0xb1
    case 116 => 0xe5 case 117 => 0x4d case 118 => 0x9a case 119 => 0xb3
    case 120 => 0xe1 case 121 => 0x45 case 122 => 0x8a case 123 => 0x93
    case 124 => 0xa1 case 125 => 0xc5 case 126 => 0x0d case _ => 0x1a
  }

  function PowRow4(i: int): byte {
    match i
    case 128 => 0x34 case 129 => 0x68 case 130 => 0xd0 case 131 => 0x27
    case 132 => 0x4e case 133 => 0x9c case 134 => 0xbf case 135 => 0xf9
    case 136 => 0x75 case 137 => 0xea case 138 => 0x53 case 139 => 0xa6
    case 140 => 0xcb case 141 => 0x11 case 142 => 0x22 case 143 => 0x44
    case 144 => 0x88 case 145 => 0x97 case 146 => 0xa9 case 147 => 0xd5
    case 148 => 0x2d case 149 => 0x5a case 150 => 0xb4 case 151 => 0xef
    case 152 => 0x59 case 153 => 0xb2 case 154 => 0xe3 case 155 => 0x41
    case 156 => 0x82 case 157 => 0x83 case 158 => 0x81 case _ => 0x85
  }

  function PowRow5(i: int): byte {
    match i
    case 160 => 0x8d case 161 => 0x9d case 162 => 0xbd case 163 => 0xfd
    case 164 => 0x7d case 165 => 0xfa case 166 => 0x73 case 167 => 0xe6
    case 168 => 0x4b case 169 => 0x96 case 170 => 0xab case 171 => 0xd1
    case 172 => 0x25 case 173 => 0x4a case 174 => 0x94 case 175 => 0xaf
    case 176 => 0xd9 case 177 => 0x35 case 178 => 0x6a case 179 => 0xd4
    case 180 => 0x2f case 181 => 0x5e case 182 => 0xbc case 183 => 0xff
    case 184 => 0x79 case 185 => 0xf2 case 186 => 0x63 case 187 => 0xc6
    case 188 => 0x0b case 189 => 0x16 case 190 => 0x2c case _ => 0x58
  }

  function PowRow6(i: int): byte {
    match i
    case 192 => 0xb0 case 193 => 0xe7 case 194 => 0x49 case 195 => 0x92
    case 196 => 0xa3 case 197 => 0xc1 case 198 => 0x05 case 199 => 0x0a
    case 200 => 0x14 case 201 => 0x28 case 202 => 0x50 case 203 => 0xa0
    case 204 => 0xc7 case 205 => 0x09 case 206 => 0x12 case 207 => 0x24
    case 208 => 0x48 case 209 => 0x90 case 210 => 0xa7 case 211 => 0xc9
    case 212 => 0x15 case 213 => 0x2a case 214 => 0x54 case 215 => 0xa8
    case 216 => 0xd7 case 217 => 0x29 case 218 => 0x52 case 219 => 0xa4
    case 220 => 0xcf case 221 => 0x19 case 222 => 0x32 case _ => 0x64
  }

  function PowRow7(i: int): byte {
    match i
    case 224 => 0xc8 case 225 => 0x17 case 226 => 0x2e case 227 => 0x5c
    case 228 => 0xb8 case 229 => 0xf7 case 230 => 0x69 case 231 => 0xd2
    case 232 => 0x23 case 233 => 0x46 case 234 => 0x8c case 235 => 0x9f
    case 236 => 0xb9 case 237 => 0xf5 case 238 => 0x6d case 239 => 0xda
    case 240 => 0x33 case 241 => 0x66 case 242 => 0xcc case 243 => 0x1f
    case 244 => 0x3e case 245 => 0x7c case 246 => 0xf8 case 247 => 0x77
    case 248 => 0xee case 249 => 0x5b case 250 => 0xb6 case 251 => 0xeb
    case 252 => 0x51 case 253 => 0xa2 case 254 => 0xc3 case _ => 0x01
  }

  function PowTable(i: int): byte {
    if i < 32 then PowRow0(i)
    else if i < 64 then PowRow1(i)
    else if i < 96 then PowRow2(i)
    else if i < 128 then PowRow3(i)
    else if i < 160 then PowRow4(i)
    else if i < 192 then PowRow5(i)
    else if i < 224 then PowRow6(i)
    else PowRow7(i)
  }

  lemma PowStep0(i: int)
    requires 0 <= i < 32
    ensures (if i < 31 then PowRow0(i + 1) else PowRow1(i + 1)) == Shifted(PowRow0(i))
  {
    hide TimesR;
  }

  lemma PowStep1(i: int)
    requires 32 <= i < 64
    ensures (if i < 63 then PowRow1(i + 1) else PowRow2(i + 1)) == Shifted(PowRow1(i))
  {
    hide TimesR;
  }

  lemma PowStep2(i: int)
    requires 64 <= i < 96
    ensures (if i < 95 then PowRow2(i + 1) else PowRow3(i + 1)) == Shifted(PowRow2(i))
  {
    hide TimesR;
  }

  lemma PowStep3(i: int)
    requires 96 <= i < 128
    ensures (if i < 127 then PowRow3(i + 1) else PowRow4(i + 1)) == Shifted(PowRow3(i))
  {
    hide TimesR;
  }

  lemma PowStep4(i: int)
    requires 128 <= i < 160
    ensures (if i < 159 then PowRow4(i + 1) else PowRow5(i + 1)) == Shifted(PowRow4(i))
  {
    hide TimesR;
  }

  lemma PowStep5(i: int)
    requires 160 <= i < 192
    ensures (if i < 191 then PowRow5(i + 1) else PowRow6(i + 1)) == Shifted(PowRow5(i))
  {
    hide TimesR;
  }

  lemma PowStep6(i: int)
    requires 192 <= i < 224
    ensures (if i < 223 then PowRow6(i + 1) else PowRow7(i + 1)) == Shifted(PowRow6(i))
  {
    hide TimesR;
  }

  lemma PowStep7(i: int)
    requires 224 <= i < 255
    ensures PowRow7(i + 1) == Shifted(PowRow7(i))
  {
    hide TimesR;
  }

  lemma PowStep(i: int)
    requires 0 <= i < 255
    ensures PowTable(i + 1) == Shifted(PowTable(i))
  {
    hide PowRow0, PowRow1, PowRow2, PowRow3, PowRow4, PowRow5, PowRow6, PowRow7, Shifted;
    if i < 32 {
      PowStep0(i);
    } else if i < 64 {
      PowStep1(i);
    } else if i < 96 {
      PowStep2(i);
    } else if i < 128 {
      PowStep3(i);
    } else if i < 160 {
      PowStep4(i);
    } else if i < 192 {
      PowStep5(i);
    } else if i < 224 {
      PowStep6(i);
    } else {
      PowStep7(i);
    }
  }

  lemma {:induction false} PowTableRight(i: int)
    requires 0 <= i < 256
    ensures PowTable(i) == Pow(i)
  {
    if i == 0 {
      assert PowTable(0) == 1;
    } else {
      hide PowTable, TimesR, Shifted;
      PowTableRight(i - 1);
      PowStep(i - 1);
    }
  }

  /** r has order 255, so exponents may be taken modulo 255. */
  lemma PowOrder()
    ensures Pow(0) == 1 && Pow(255) == 1
  {
    assert PowTable(255) == 1;
    hide PowTable, TimesR;
    PowTableRight(255);
  }

  lemma ExpTable(i: int)
    requires 0 <= i < 256
    ensures Exp(i) == PowTable(i)
  {
    hide Pow, PowTable;
    PowTableRight(i);
    PowOrder();
    PowTableRight(0);
  }

  method GfPow(i: int) returns (p: byte)
    requires 0 <= i < 256
    ensures p == Exp(i)
  {
    hide *;
    p := PowTable(i);
    ExpTable(i);
  }

  // ----- logarithms -----

  // gflog: the exponent of a as a power of r; zero, which has none, is given 255.
  function LogRow0(a: int): byte {
    match a
    case 0x00 => 255 case 0x01 => 0 case 0x02 => 1 case 0x03 => 99
    case 0x04 => 2 case 0x05 => 198 case 0x06 => 100 case 0x07 => 106
    case 0x08 => 3 case 0x09 => 205 case 0x0a => 199 case 0x0b => 188
    case 0x0c => 101 case 0x0d => 126 case 0x0e => 107 case 0x0f => 42
    case 0x10 => 4 case 0x11 => 141 case 0x12 => 206 case 0x13 => 78
    case 0x14 => 200 case 0x15 => 212 case 0x16 => 189 case 0x17 => 225
    case 0x18 => 102 case 0x19 => 221 case 0x1a => 127 case 0x1b => 49
    case 0x1c => 108 case 0x1d => 32 case 0x1e => 43 case _ => 243
  }

  function LogRow1(a: int): byte {
    match a
    case 0x20 => 5 case 0x21 => 87 case 0x22 => 142 case 0x23 => 232
    case 0x24 => 207 case 0x25 => 172 case 0x26 => 79 case 0x27 => 131
    case 0x28 => 201 case 0x29 => 217 case 0x2a => 213 case 0x2b => 65
    case 0x2c => 190 case 0x2d => 148 case 0x2e => 226 case 0x2f => 180
    case 0x30 => 103 case 0x31 => 39 case 0x32 => 222 case 0x33 => 240
    case 0x34 => 128 case 0x35 => 177 case 0x36 => 50 case 0x37 => 53
    case 0x38 => 109 case 0x39 => 69 case 0x3a => 33 case 0x3b => 18
    case 0x3c => 44 case 0x3d => 13 case 0x3e => 244 case _ => 56
  }

  function LogRow2(a: int): byte {
    match a
    case 0x40 => 6 case 0x41 => 155 case 0x42 => 88 case 0x43 => 26
    case 0x44 => 143 case 0x45 => 121 case 0x46 => 233 case 0x47 => 112
    case 0x48 => 208 case 0x49 => 194 case 0x4a => 173 case 0x4b => 168
    case 0x4c => 80 case 0x4d => 117 case 0x4e => 132 case 0x4f => 72
    case 0x50 => 202 case 0x51 => 252 case 0x52 => 218 case 0x53 => 138
    case 0x54 => 214 case 0x55 => 84 case 0x56 => 66 case 0x57 => 36
    case 0x58 => 191 case 0x59 => 152 case 0x5a => 149 case 0x5b => 249
    case 0x5c => 227 case 0x5d => 94 case 0x5e => 181 case _ => 21
  }

  function LogRow3(a: int): byte {
    match a
    case 0x60 => 104 case 0x61 => 97 case 0x62 => 40 case 0x63 => 186
    case 0x64 => 223 case 0x65 => 76 case 0x66 => 241 case 0x67 => 47
    case 0x68 => 129 case 0x69 => 230 case 0x6a => 178 case 0x6b => 63
    case 0x6c => 51 case 0x6d => 238 case 0x6e => 54 case 0x6f => 16
    case 0x70 => 110 case 0x71 => 24 case 0x72 => 70 case 0x73 => 166
    case 0x74 => 34 case 0x75 => 136 case 0x76 => 19 case 0x77 => 247
    case 0x78 => 45 case 0x79 => 184 case 0x7a => 14 case 0x7b => 61
    case 0x7c => 245 case 0x7d => 164 case 0x7e => 57 case _ => 59
  }

  function LogRow4(a: int): byte {
    match a
    case 0x80 => 7 case 0x81 => 158 case 0x82 => 156 case 0x83 => 157
    case 0x84 => 89 case 0x85 => 159 case 0x86 => 27 case 0x87 => 8
    case 0x88 => 144 case 0x89 => 9 case 0x8a => 122 case 0x8b => 28
    case 0x8c => 234 case 0x8d => 160 case 0x8e => 113 case 0x8f => 90
    case 0x90 => 209 case 0x91 => 29 case 0x92 => 195 case 0x93 => 123
    case 0x94 => 174 case 0x95 => 10 case 0x96 => 169 case 0x97 => 145
    case 0x98 => 81 case 0x99 => 91 case 0x9a => 118 case 0x9b => 114
    case 0x9c => 133 case 0x9d => 161 case 0x9e => 73 case _ => 235
  }

  function LogRow5(a: int): byte {
    match a
    case 0xa0 => 203 case 0xa1 => 124 case 0xa2 => 253 case 0xa3 => 196
    case 0xa4 => 219 case 0xa5 => 30 case 0xa6 => 139 case 0xa7 => 210
    case 0xa8 => 215 case 0xa9 => 146 case 0xaa => 85 case 0xab => 170
    case 0xac => 67 case 0xad => 11 case 0xae => 37 case 0xaf => 175
    case 0xb0 => 192 case 0xb1 => 115 case 0xb2 => 153 case 0xb3 => 119
    case 0xb4 => 150 case 0xb5 => 92 case 0xb6 => 250 case 0xb7 => 82
    case 0xb8 => 228 case 0xb9 => 236 case 0xba => 95 case 0xbb => 74
    case 0xbc => 182 case 0xbd => 162 case 0xbe => 22 case _ => 134
  }

  function LogRow6(a: int): byte {
    match a
    case 0xc0 => 105 case 0xc1 => 197 case 0xc2 => 98 case 0xc3 => 254
    case 0xc4 => 41 case 0xc5 => 125 case 0xc6 => 187 case 0xc7 => 204
    case 0xc8 => 224 case 0xc9 => 211 case 0xca => 77 case 0xcb => 140
    case 0xcc => 242 case 0xcd => 31 case 0xce => 48 case 0xcf => 220
    case 0xd0 => 130 case 0xd1 => 171 case 0xd2 => 231 case 0xd3 => 86
    case 0xd4 => 179 case 0xd5 => 147 case 0xd6 => 64 case 0xd7 => 216
    case 0xd8 => 52 case 0xd9 => 176 case 0xda => 239 case 0xdb => 38
    case 0xdc => 55 case 0xdd => 12 case 0xde => 17 case _ => 68
  }

  function LogRow7(a: int): byte {
    match a
    case 0xe0 => 111 case 0xe1 => 120 case 0xe2 => 25 case 0xe3 => 154
    case 0xe4 => 71 case 0xe5 => 116 case 0xe6 => 167 case 0xe7 => 193
    case 0xe8 => 35 case 0xe9 => 83 case 0xea => 137 case 0xeb => 251
    case 0xec => 20 case 0xed => 93 case 0xee => 248 case 0xef => 151
    case 0xf0 => 46 case 0xf1 => 75 case 0xf2 => 185 case 0xf3 => 96
    case 0xf4 => 15 case 0xf5 => 237 case 0xf6 => 62 case 0xf7 => 229
    case 0xf8 => 246 case 0xf9 => 135 case 0xfa => 165 case 0xfb => 23
    case 0xfc => 58 case 0xfd => 163 case 0xfe => 60 case _ => 183
  }

  function LogTable(a: int): byte {
    if a < 32 then LogRow0(a)
    else if a < 64 then LogRow1(a)
    else if a < 96 then LogRow2(a)
    else if a < 128 then LogRow3(a)
    else if a < 160 then LogRow4(a)
    else if a < 192 then LogRow5(a)
    else if a < 224 then LogRow6(a)
    else LogRow7(a)
  }

  lemma LogStep0(a: int)
    requires 0 <= a < 32
    ensures if a == 0 then LogRow0(a) == 255 else LogRow0(a) < 255 && PowTable(LogRow0(a)) == a
  {}

  lemma LogStep1(a: int)
    requires 32 <= a < 64
    ensures LogRow1(a) < 255 && PowTable(LogRow1(a)) == a
  {}

  lemma LogStep2(a: int)
    requires 64 <= a < 96
    ensures LogRow2(a) < 255 && PowTable(LogRow2(a)) == a
  {}

  lemma LogStep3(a: int)
    requires 96 <= a < 128
    ensures LogRow3(a) < 255 && PowTable(LogRow3(a)) == a
  {}

  lemma LogStep4(a: int)
    requires 128 <= a < 160
    ensures LogRow4(a) < 255 && PowTable(LogRow4(a)) == a
  {}

  lemma LogStep5(a: int)
    requires 160 <= a < 192
    ensures LogRow5(a) < 255 && PowTable(LogRow5(a)) == a
  {}

  lemma LogStep6(a: int)
    requires 192 <= a < 224
    ensures LogRow6(a) < 255 && PowTable(LogRow6(a)) == a
  {}

  lemma LogStep7(a: int)
    requires 224 <= a < 256
    ensures LogRow7(a) < 255 && PowTable(LogRow7(a)) == a
  {}

  lemma LogTableRight(a: byte)
    ensures if a == 0 then LogTable(a) == 255 else LogTable(a) < 255 && Exp(LogTable(a)) == a
  {
    hide LogRow0, LogRow1, LogRow2, LogRow3, LogRow4, LogRow5, LogRow6, LogRow7, PowTable, Exp;
    if a < 32 {
      LogStep0(a);
    } else if a < 64 {
      LogStep1(a);
    } else if a < 96 {
      LogStep2(a);
    } else if a < 128 {
      LogStep3(a);
    } else if a < 160 {
      LogStep4(a);
    } else if a < 192 {
      LogStep5(a);
    } else if a < 224 {
      LogStep6(a);
    } else {
      LogStep7(a);
    }
    ExpTable(LogTable(a));
  }

  method GfLog(a: byte) returns (l: byte)
    ensures a == 0 <==> l == 255
    ensures a != 0 ==> Exp(l) == a
  {
    hide *;
    l := LogTable(a);
    LogTableRight(a);
  }

  /** r is primitive: its powers are all the non-zero elements. */
  lemma LogExists(a: byte) returns (l: int)
    requires a != 0
    ensures 0 <= l < 255 && Exp(l) == a
  {
    hide *;
    l := LogTable(a);
    LogTableRight(a);
  }

  // ----- products with r^105 -----

  // gfmul_c0: the product of a and 0xc0.
  function C0Row0(a: int): byte {
    match a
    case 0x00 => 0x00 case 0x01 => 0xc0 case 0x02 => 0x07 case 0x03 => 0xc7
    case 0x04 => 0x0e case 0x05 => 0xce case 0x06 => 0x09 case 0x07 => 0xc9
    case 0x08 => 0x1c case 0x09 => 0xdc case 0x0a => 0x1b case 0x0b => 0xdb
    case 0x0c => 0x12 case 0x0d => 0xd2 case 0x0e => 0x15 case 0x0f => 0xd5
    case 0x10 => 0x38 case 0x11 => 0xf8 case 0x12 => 0x3f case 0x13 => 0xff
    case 0x14 => 0x36 case 0x15 => 0xf6 case 0x16 => 0x31 case 0x17 => 0xf1
    case 0x18 => 0x24 case 0x19 => 0xe4 case 0x1a => 0x23 case 0x1b => 0xe3
    case 0x1c => 0x2a case 0x1d => 0xea case 0x1e => 0x2d case _ => 0xed
  }

  function C0Row1(a: int): byte {
    match a
    case 0x20 => 0x70 case 0x21 => 0xb0 case 0x22 => 0x77 case 0x23 => 0xb7
    case 0x24 => 0x7e case 0x25 => 0xbe case 0x26 => 0x79 case 0x27 => 0xb9
    case 0x28 => 0x6c case 0x29 => 0xac case 0x2a => 0x6b case 0x2b => 0xab
    case 0x2c => 0x62 case 0x2d => 0xa2 case 0x2e => 0x65 case 0x2f => 0xa5
    case 0x30 => 0x48 case 0x31 => 0x88 case 0x32 => 0x4f case 0x33 => 0x8f
    case 0x34 => 0x46 case 0x35 => 0x86 case 0x36 => 0x41 case 0x37 => 0x81
    case 0x38 => 0x54 case 0x39 => 0x94 case 0x3a => 0x53 case 0x3b => 0x93
    case 0x3c => 0x5a case 0x3d => 0x9a case 0x3e => 0x5d case _ => 0x9d
  }

  function C0Row2(a: int): byte {
    match a
    case 0x40 => 0xe0 case 0x41 => 0x20 case 0x42 => 0xe7 case 0x43 => 0x27
    case 0x44 => 0xee case 0x45 => 0x2e case 0x46 => 0xe9 case 0x47 => 0x29
    case 0x48 => 0xfc case 0x49 => 0x3c case 0x4a => 0xfb case 0x4b => 0x3b
    case 0x4c => 0xf2 case 0x4d => 0x32 case 0x4e => 0xf5 case 0x4f => 0x35
    case 0x50 => 0xd8 case 0x51 => 0x18 case 0x52 => 0xdf case 0x53 => 0x1f
    case 0x54 => 0xd6 case 0x55 => 0x16 case 0x56 => 0xd1 case 0x57 => 0x11
    case 0x58 => 0xc4 case 0x59 => 0x04 case 0x5a => 0xc3 case 0x5b => 0x03
    case 0x5c => 0xca case 0x5d => 0x0a case 0x5e => 0xcd case _ => 0x0d
  }

  function C0Row3(a: int): byte {
    match a
    case 0x60 => 0x90 case 0x61 => 0x50 case 0x62 => 0x97 case 0x63 => 0x57
    case 0x64 => 0x9e case 0x65 => 0x5e case 0x66 => 0x99 case 0x67 => 0x59
    case 0x68 => 0x8c case 0x69 => 0x4c case 0x6a => 0x8b case 0x6b => 0x4b
    case 0x6c => 0x82 case 0x6d => 0x42 case 0x6e => 0x85 case 0x6f => 0x45
    case 0x70 => 0xa8 case 0x71 => 0x68 case 0x72 => 0xaf case 0x73 => 0x6f
    case 0x74 => 0xa6 case 0x75 => 0x66 case 0x76 => 0xa1 case 0x77 => 0x61
    case 0x78 => 0xb4 case 0x79 => 0x74 case 0x7a => 0xb3 case 0x7b => 0x73
    case 0x7c => 0xba case 0x7d => 0x7a case 0x7e => 0xbd case _ => 0x7d
  }

  function C0Row4(a: int): byte {
    match a
    case 0x80 => 0x47 case 0x81 => 0x87 case 0x82 => 0x40 case 0x83 => 0x80
    case 0x84 => 0x49 case 0x85 => 0x89 case 0x86 => 0x4e case 0x87 => 0x8e
    case 0x88 => 0x5b case 0x89 => 0x9b case 0x8a => 0x5c case 0x8b => 0x9c
    case 0x8c => 0x55 case 0x8d => 0x95 case 0x8e => 0x52 case 0x8f => 0x92
    case 0x90 => 0x7f case 0x91 => 0xbf case 0x92 => 0x78 case 0x93 => 0xb8
    case 0x94 => 0x71 case 0x95 => 0xb1 case 0x96 => 0x76 case 0x97 => 0xb6
    case 0x98 => 0x63 case 0x99 => 0xa3 case 0x9a => 0x64 case 0x9b => 0xa4
    case 0x9c => 0x6d case 0x9d => 0xad case 0x9e => 0x6a case _ => 0xaa
  }

  function C0Row5(a: int): byte {
    match a
    case 0xa0 => 0x37 case 0xa1 => 0xf7 case 0xa2 => 0x30 case 0xa3 => 0xf0
    case 0xa4 => 0x39 case 0xa5 => 0xf9 case 0xa6 => 0x3e case 0xa7 => 0xfe
    case 0xa8 => 0x2b case 0xa9 => 0xeb case 0xaa => 0x2c case 0xab => 0xec
    case 0xac => 0x25 case 0xad => 0xe5 case 0xae => 0x22 case 0xaf => 0xe2
    case 0xb0 => 0x0f case 0xb1 => 0xcf case 0xb2 => 0x08 case 0xb3 => 0xc8
    case 0xb4 => 0x01 case 0xb5 => 0xc1 case 0xb6 => 0x06 case 0xb7 => 0xc6
    case 0xb8 => 0x13 case 0xb9 => 0xd3 case 0xba => 0x14 case 0xbb => 0xd4
    case 0xbc => 0x1d case 0xbd => 0xdd case 0xbe => 0x1a case _ => 0xda
  }

  function C0Row6(a: int): byte {
    match a
    case 0xc0 => 0xa7 case 0xc1 => 0x67 case 0xc2 => 0xa0 case 0xc3 => 0x60
    case 0xc4 => 0xa9 case 0xc5 => 0x69 case 0xc6 => 0xae case 0xc7 => 0x6e
    case 0xc8 => 0xbb case 0xc9 => 0x7b case 0xca => 0xbc case 0xcb => 0x7c
    case 0xcc => 0xb5 case 0xcd => 0x75 case 0xce => 0xb2 case 0xcf => 0x72
    case 0xd0 => 0x9f case 0xd1 => 0x5f case 0xd2 => 0x98 case 0xd3 => 0x58
    case 0xd4 => 0x91 case 0xd5 => 0x51 case 0xd6 => 0x96 case 0xd7 => 0x56
    case 0xd8 => 0x83 case 0xd9 => 0x43 case 0xda => 0x84 case 0xdb => 0x44
    case 0xdc => 0x8d case 0xdd => 0x4d case 0xde => 0x8a case _ => 0x4a
  }

  function C0Row7(a: int): byte {
    match a
    case 0xe0 => 0xd7 case 0xe1 => 0x17 case 0xe2 => 0xd0 case 0xe3 => 0x10
    case 0xe4 => 0xd9 case 0xe5 => 0x19 case 0xe6 => 0xde case 0xe7 => 0x1e
    case 0xe8 => 0xcb case 0xe9 => 0x0b case 0xea => 0xcc case 0xeb => 0x0c
    case 0xec => 0xc5 case 0xed => 0x05 case 0xee => 0xc2 case 0xef => 0x02
    case 0xf0 => 0xef case 0xf1 => 0x2f case 0xf2 => 0xe8 case 0xf3 => 0x28
    case 0xf4 => 0xe1 case 0xf5 => 0x21 case 0xf6 => 0xe6 case 0xf7 => 0x26
    case 0xf8 => 0xf3 case 0xf9 => 0x33 case 0xfa => 0xf4 case 0xfb => 0x34
    case 0xfc => 0xfd case 0xfd => 0x3d case 0xfe => 0xfa case _ => 0x3a
  }

  function C0Table(a: int): byte {
    if a < 32 then C0Row0(a)
    else if a < 64 then C0Row1(a)
    else if a < 96 then C0Row2(a)
    else if a < 128 then C0Row3(a)
    else if a < 160 then C0Row4(a)
    else if a < 192 then C0Row5(a)
    else if a < 224 then C0Row6(a)
    else C0Row7(a)
  }

  lemma C0Step0(a: int)
    requires 0 <= a < 16
    ensures C0Row0(2 * a) == Shifted(C0Row0(a))
    ensures C0Row0(2 * a + 1) == Toggled(C0Row0(2 * a))
  {
    hide TimesR, Add;
  }

  lemma C0Step1(a: int)
    requires 16 <= a < 32
    ensures C0Row1(2 * a) == Shifted(C0Row0(a))
    ensures C0Row1(2 * a + 1) == Toggled(C0Row1(2 * a))
  {
    hide TimesR, Add;
  }

  lemma C0Step2(a: int)
    requires 32 <= a < 48
    ensures C0Row2(2 * a) == Shifted(C0Row1(a))
    ensures C0Row2(2 * a + 1) == Toggled(C0Row2(2 * a))
  {
    hide TimesR, Add;
  }

  lemma C0Step3(a: int)
    requires 48 <= a < 64
    ensures C0Row3(2 * a) == Shifted(C0Row1(a))
    ensures C0Row3(2 * a + 1) == Toggled(C0Row3(2 * a))
  {
    hide TimesR, Add;
  }

  lemma C0Step4(a: int)
    requires 64 <= a < 80
    ensures C0Row4(2 * a) == Shifted(C0Row2(a))
    ensures C0Row4(2 * a + 1) == Toggled(C0Row4(2 * a))
  {
    hide TimesR, Add;
  }

  lemma C0Step5(a: int)
    requires 80 <= a < 96
    ensures C0Row5(2 * a) == Shifted(C0Row2(a))
    ensures C0Row5(2 * a + 1) == Toggled(C0Row5(2 * a))
  {
    hide TimesR, Add;
  }

  lemma C0Step6(a: int)
    requires 96 <= a < 112
    ensures C0Row6(2 * a) == Shifted(C0Row3(a))
    ensures C0Row6(2 * a + 1) == Toggled(C0Row6(2 * a))
  {
    hide TimesR, Add;
  }

  lemma C0Step7(a: int)
    requires 112 <= a < 128
    ensures C0Row7(2 * a) == Shifted(C0Row3(a))
    ensures C0Row7(2 * a + 1) == Toggled(C0Row7(2 * a))
  {
    hide TimesR, Add;
  }

  /** The product for 2 * a is r times that for a, and the one for 2 * a + 1 is 0xc0 more. */
  lemma C0Step(a: int)
    requires 0 <= a < 128
    ensures C0Table(2 * a) == Shifted(C0Table(a))
    ensures C0Table(2 * a + 1) == Toggled(C0Table(2 * a))
  {
    hide C0Row0, C0Row1, C0Row2, C0Row3, C0Row4, C0Row5, C0Row6, C0Row7, Shifted, Toggled;
    if a < 16 {
      C0Step0(a);
    } else if a < 32 {
      C0Step1(a);
    } else if a < 48 {
      C0Step2(a);
    } else if a < 64 {
      C0Step3(a);
    } else if a < 80 {
      C0Step4(a);
    } else if a < 96 {
      C0Step5(a);
    } else if a < 112 {
      C0Step6(a);
    } else {
      C0Step7(a);
    }
  }

  lemma C0Start()
    ensures C0Table(0) == 0
  {}

  lemma {:induction false} C0TableRight(a: byte)
    ensures C0Table(a) == Mul(a, 0xc0)
  {
    hide C0Table, TimesR, Add, Shifted, Toggled;
    if a == 0 {
      C0Start();
    } else {
      assert Half(a) == a / 2 && Odd(a) == a % 2;
      hide Mul, Half, Odd;
      C0TableRight(a / 2);
      C0Step(a / 2);
      MulUnfold(a, 0xc0);
      AddZero(Shifted(C0Table(a / 2)));
      AddCommutes(Shifted(C0Table(a / 2)), 0xc0);
    }
  }

  method GfMulC0(a: byte) returns (p: byte)
    ensures p == Mul(a, 0xc0)
  {
    hide *;
    p := C0Table(a);
    C0TableRight(a);
  }
}
